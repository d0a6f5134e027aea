/**
 * Catalog orders as values: the rows, what each service call does to the tables when it runs alone,
 * and what every run of calls keeps.  Row ids are the autoincrement ids, so the row with id `i` is
 * element `i` of its table.
 */
module CatalogOrders {
  import opened Wrappers
  import opened Text

  datatype OrderStatus =
    | PendingPayment | PendingVerification | Confirmed | ReadyToShip | Shipped | Delivered
    | Rejected | Cancelled | Completed

  datatype PaymentStatus = PaymentPending | PaymentSubmitted | PaymentVerified | PaymentRejected

  datatype Address = Address(
    name: Option<string>, line: string, city: Option<string>, state: Option<string>,
    pincode: string, landmark: Option<string>, phone: Option<string>)

  datatype Shipment = Shipment(tracking: string, courier: Option<string>, url: Option<string>, at: int)

  datatype Order = Order(
    userId: nat, siteId: nat, productId: Option<nat>, quantity: nat, amountPaise: nat,
    customerName: Option<string>, customerPhone: Option<string>, contactId: Option<nat>,
    payment: PaymentStatus, status: OrderStatus, screenshot: Option<nat>,
    verifiedAt: Option<int>, verifiedBy: Option<nat>, rejectionReason: Option<string>,
    address: Option<Address>, shipment: Option<Shipment>, deliveredAt: Option<int>)

  datatype Product = Product(siteId: nat, pricePaise: Option<nat>, isActive: bool, stock: int)

  datatype Site = Site(id: nat, paymentsEnabled: bool, qrMedia: Option<nat>)

  datatype Media = Media(siteId: nat, isImage: bool)

  /** The tables the order service only reads. */
  datatype Shop = Shop(sites: map<nat, Site>, contacts: map<nat, nat>, media: seq<Media>)

  datatype Db = Db(shop: Shop, products: seq<Product>, orders: seq<Order>)

  datatype Error =
    | SiteNotFound | ProductNotFound | OrderNotFound
    | ProductInactive | OutOfStock | PaymentsNotConfigured | ContactNotFound
    | MediaNotFound | MediaNotImage | NoProduct | BadPincode | NoAddress | NoTracking
    | NotPayable | CannotConfirm(status: OrderStatus) | AlreadyDecided | InsufficientStock
    | CannotReject(status: OrderStatus) | CannotSetAddress(status: OrderStatus)
    | CannotShip(status: OrderStatus) | CannotDeliver(status: OrderStatus)
    | ServerFailure

  type Answer = Result<Order, Error>

  const ORDER_QUANTITY := 1

  // ----- requests -----

  datatype CreateRequest = CreateRequest(
    productId: nat, contactId: Option<nat>, customerName: Option<string>, customerPhone: Option<string>)

  datatype AddressRequest = AddressRequest(
    name: Option<string>, line: string, city: Option<string>, state: Option<string>,
    pincode: string, landmark: Option<string>, phone: Option<string>)

  /** `inferredUrl` is what the courier table would give for this courier and tracking number. */
  datatype ShipRequest = ShipRequest(
    tracking: string, courier: Option<string>, url: Option<string>, inferredUrl: Option<string>)

  /** The columns the owner sends; a price can be taken away. */
  datatype ProductEdit = ProductEdit(stock: Option<nat>, isActive: Option<bool>, price: Option<Option<nat>>)

  datatype Op =
    | Create(userId: nat, create: CreateRequest)
    | Attach(userId: nat, orderId: nat, mediaId: nat)
    | Confirm(userId: nat, orderId: nat, at: int)
    | Reject(userId: nat, orderId: nat, reason: Option<string>, at: int)
    | SetAddress(userId: nat, orderId: nat, address: AddressRequest)
    | Ship(userId: nat, orderId: nat, ship: ShipRequest, at: int)
    | Deliver(userId: nat, orderId: nat, at: int)
    | Edit(userId: nat, productId: nat, edit: ProductEdit)

  // ----- one call, run alone -----

  /** `requireOrder`: the row exists and belongs to the caller. */
  predicate Visible(orders: seq<Order>, userId: nat, orderId: nat) {
    orderId < |orders| && orders[orderId].userId == userId
  }

  function SiteOf(db: Db, userId: nat): Option<Site> {
    if userId in db.shop.sites then Some(db.shop.sites[userId]) else None
  }

  function CreateAnswer(db: Db, userId: nat, r: CreateRequest): Answer {
    var site := SiteOf(db, userId);
    if site.None? then Err(SiteNotFound)
    else if r.productId >= |db.products| || db.products[r.productId].siteId != site.value.id then Err(ProductNotFound)
    else
      var product := db.products[r.productId];
      if !product.isActive then Err(ProductInactive)
      else if product.stock < ORDER_QUANTITY then Err(OutOfStock)
      else if !site.value.paymentsEnabled || site.value.qrMedia.None? then Err(PaymentsNotConfigured)
      else if r.contactId.Some?
        && !(r.contactId.value in db.shop.contacts && db.shop.contacts[r.contactId.value] == userId)
      then Err(ContactNotFound)
      else
        var price := if product.pricePaise.Some? then product.pricePaise.value else 0;
        Ok(Order(userId, site.value.id, Some(r.productId), ORDER_QUANTITY, price * ORDER_QUANTITY,
                 TrimOr(r.customerName, None), TrimOr(r.customerPhone, None), r.contactId,
                 PaymentPending, PendingPayment, None, None, None, None, None, None, None))
  }

  function AttachAnswer(db: Db, userId: nat, orderId: nat, mediaId: nat): Answer {
    if !Visible(db.orders, userId, orderId) then Err(OrderNotFound)
    else
      var o := db.orders[orderId];
      if o.status != PendingPayment && o.status != PendingVerification then Err(NotPayable)
      else if mediaId >= |db.shop.media| || db.shop.media[mediaId].siteId != o.siteId then Err(MediaNotFound)
      else if !db.shop.media[mediaId].isImage then Err(MediaNotImage)
      else Ok(o.(screenshot := Some(mediaId), payment := PaymentSubmitted, status := PendingVerification))
  }

  /** The `where` of the confirm claim: the row is the caller's and still waits for verification. */
  predicate Confirmable(orders: seq<Order>, userId: nat, orderId: nat) {
    && Visible(orders, userId, orderId)
    && orders[orderId].status == PendingVerification
    && orders[orderId].payment == PaymentSubmitted
  }

  /** The `where` of the reject claim, which does not look at the payment status. */
  predicate Rejectable(orders: seq<Order>, userId: nat, orderId: nat) {
    Visible(orders, userId, orderId) && orders[orderId].status == PendingVerification
  }

  /** The `where` of the stock decrement. */
  predicate Deductible(products: seq<Product>, productId: nat, siteId: nat, quantity: nat) {
    productId < |products| && products[productId].siteId == siteId && products[productId].stock >= quantity
  }

  /** The row the confirm claim writes. */
  function Claimed(o: Order, userId: nat, at: int): Order {
    o.(payment := PaymentVerified, status := Confirmed, verifiedAt := Some(at), verifiedBy := Some(userId),
       rejectionReason := None)
  }

  /** The row `confirm` writes by hand before it throws for lack of stock. */
  function Unclaimed(o: Order): Order {
    o.(payment := PaymentSubmitted, status := PendingVerification, verifiedAt := None, verifiedBy := None)
  }

  /** The row the reject claim writes. */
  function Refused(o: Order, userId: nat, reason: Option<string>, at: int): Order {
    o.(payment := PaymentRejected, status := Rejected, verifiedAt := Some(at), verifiedBy := Some(userId),
       rejectionReason := TrimOr(reason, None))
  }

  function Deduct(products: seq<Product>, productId: nat, quantity: nat): seq<Product>
    requires productId < |products|
  {
    products[productId := products[productId].(stock := products[productId].stock - quantity)]
  }

  function ConfirmAnswer(db: Db, userId: nat, orderId: nat, at: int): Answer {
    if !Visible(db.orders, userId, orderId) then Err(OrderNotFound)
    else
      var o := db.orders[orderId];
      if !Confirmable(db.orders, userId, orderId) then Err(CannotConfirm(o.status))
      else if o.productId.None? then Err(NoProduct)
      else if !Deductible(db.products, o.productId.value, o.siteId, o.quantity) then Err(InsufficientStock)
      else Ok(Claimed(o, userId, at))
  }

  function RejectAnswer(db: Db, userId: nat, orderId: nat, reason: Option<string>, at: int): Answer {
    if !Visible(db.orders, userId, orderId) then Err(OrderNotFound)
    else if !Rejectable(db.orders, userId, orderId) then Err(CannotReject(db.orders[orderId].status))
    else Ok(Refused(db.orders[orderId], userId, reason, at))
  }

  function Pincode(raw: string): (r: string) {
    var d := Digits(raw);
    if |d| > 12 then d[..12] else d
  }

  function SetAddressAnswer(db: Db, userId: nat, orderId: nat, r: AddressRequest): Answer {
    if !Visible(db.orders, userId, orderId) then Err(OrderNotFound)
    else
      var o := db.orders[orderId];
      if o.status != Confirmed && o.status != ReadyToShip then Err(CannotSetAddress(o.status))
      else if |Pincode(r.pincode)| < 6 then Err(BadPincode)
      else
        var address := Address(TrimOr(r.name, o.customerName), Trim(r.line), TrimOr(r.city, None),
                               TrimOr(r.state, None), Pincode(r.pincode), TrimOr(r.landmark, None),
                               TrimOr(r.phone, o.customerPhone));
        Ok(o.(address := Some(address), status := ReadyToShip))
  }

  function ShipAnswer(db: Db, userId: nat, orderId: nat, r: ShipRequest, at: int): Answer {
    if !Visible(db.orders, userId, orderId) then Err(OrderNotFound)
    else
      var o := db.orders[orderId];
      if o.status != ReadyToShip && o.status != Confirmed then Err(CannotShip(o.status))
      else if o.address.None? || o.address.value.line == "" || o.address.value.pincode == "" then Err(NoAddress)
      else if |Trim(r.tracking)| < 3 then Err(NoTracking)
      else
        var shipment := Shipment(Trim(r.tracking), TrimOr(r.courier, None), TrimOr(r.url, r.inferredUrl), at);
        Ok(o.(status := Shipped, shipment := Some(shipment)))
  }

  function DeliverAnswer(db: Db, userId: nat, orderId: nat, at: int): Answer {
    if !Visible(db.orders, userId, orderId) then Err(OrderNotFound)
    else
      var o := db.orders[orderId];
      if o.status != Shipped then Err(CannotDeliver(o.status))
      else Ok(o.(status := Delivered, deliveredAt := Some(at)))
  }

  /** What a call on an order answers. */
  function AnswerOf(db: Db, op: Op): Answer
    requires !op.Edit?
  {
    match op
    case Create(u, r) => CreateAnswer(db, u, r)
    case Attach(u, i, m) => AttachAnswer(db, u, i, m)
    case Confirm(u, i, at) => ConfirmAnswer(db, u, i, at)
    case Reject(u, i, reason, at) => RejectAnswer(db, u, i, reason, at)
    case SetAddress(u, i, r) => SetAddressAnswer(db, u, i, r)
    case Ship(u, i, r, at) => ShipAnswer(db, u, i, r, at)
    case Deliver(u, i, at) => DeliverAnswer(db, u, i, at)
  }

  predicate OwnsProduct(db: Db, userId: nat, productId: nat) {
    && SiteOf(db, userId).Some?
    && productId < |db.products|
    && db.products[productId].siteId == SiteOf(db, userId).value.id
  }

  function Edited(product: Product, edit: ProductEdit): Product {
    product.(stock := if edit.stock.Some? then edit.stock.value else product.stock,
             isActive := if edit.isActive.Some? then edit.isActive.value else product.isActive,
             pricePaise := if edit.price.Some? then edit.price.value else product.pricePaise)
  }

  /** The owner changes a product. */
  function EditAnswer(db: Db, userId: nat, productId: nat, edit: ProductEdit): Result<Product, Error> {
    if SiteOf(db, userId).None? then Err(SiteNotFound)
    else if !OwnsProduct(db, userId, productId) then Err(ProductNotFound)
    else Ok(Edited(db.products[productId], edit))
  }

  /** What the caller of any call gets. */
  datatype Reply = OfOrder(order: Answer) | OfProduct(product: Result<Product, Error>)

  function ReplyOf(db: Db, op: Op): Reply {
    if op.Edit? then OfProduct(EditAnswer(db, op.userId, op.productId, op.edit)) else OfOrder(AnswerOf(db, op))
  }

  /** The tables after a call. */
  function After(db: Db, op: Op): Db {
    if op.Edit? then
      var answer := EditAnswer(db, op.userId, op.productId, op.edit);
      if answer.Err? then db else db.(products := db.products[op.productId := answer.value])
    else
      var answer := AnswerOf(db, op);
      if answer.Err? then db
      else if op.Create? then db.(orders := db.orders + [answer.value])
      else
        var db' := db.(orders := db.orders[op.orderId := answer.value]);
        if op.Confirm?
        then
          var o := db.orders[op.orderId];
          db'.(products := Deduct(db.products, o.productId.value, o.quantity))
        else db'
  }

  function Run(db: Db, ops: seq<Op>): Db
    decreases ops
  {
    if ops == [] then db else Run(After(db, ops[0]), ops[1..])
  }

  lemma {:induction false} RunAppend(db: Db, xs: seq<Op>, ys: seq<Op>)
    ensures Run(db, xs + ys) == Run(Run(db, xs), ys)
    decreases xs
  {
    if xs == [] {
      assert xs + ys == ys;
    } else {
      assert (xs + ys)[0] == xs[0] && (xs + ys)[1..] == xs[1..] + ys;
      RunAppend(After(db, xs[0]), xs[1..], ys);
    }
  }

  // ----- the order lifecycle -----

  /** The statuses sales analytics counts as paid. */
  predicate IsPaid(s: OrderStatus) { s in {Confirmed, ReadyToShip, Shipped, Delivered, Completed} }

  predicate GoodAddress(a: Address) {
    6 <= |a.pincode| <= 12 && forall c :: c in a.pincode ==> IsDigit(c)
  }

  predicate OrderInv(o: Order) {
    && o.status != Cancelled && o.status != Completed
    && (o.payment == PaymentVerified <==> IsPaid(o.status))
    && (o.payment == PaymentRejected <==> o.status == Rejected)
    && (o.payment == PaymentSubmitted <==> o.status == PendingVerification)
    && (o.payment == PaymentSubmitted || o.payment == PaymentVerified ==> o.screenshot.Some?)
    && (o.verifiedAt.Some? <==> o.payment == PaymentVerified || o.payment == PaymentRejected)
    && (o.verifiedBy == if o.verifiedAt.Some? then Some(o.userId) else None)
    && (o.rejectionReason.Some? ==> o.status == Rejected)
    && (o.address.Some? <==> o.status in {ReadyToShip, Shipped, Delivered})
    && (o.address.Some? ==> GoodAddress(o.address.value))
    && (o.shipment.Some? <==> o.status in {Shipped, Delivered})
    && (o.shipment.Some? ==> o.address.value.line != "" && |o.shipment.value.tracking| >= 3)
    && (o.deliveredAt.Some? <==> o.status == Delivered)
    && o.quantity == ORDER_QUANTITY && o.productId.Some?
  }

  ghost predicate DbInv(db: Db) {
    && (forall i | 0 <= i < |db.orders| :: OrderInv(db.orders[i]))
    && (forall p | 0 <= p < |db.products| :: db.products[p].stock >= 0)
  }

  lemma AfterKeepsInv(db: Db, op: Op)
    requires DbInv(db)
    ensures DbInv(After(db, op))
  {
    if !op.Edit? {
      var answer := AnswerOf(db, op);
      if answer.Ok? { AnswerIsGood(db, op); }
    }
  }

  lemma AnswerIsGood(db: Db, op: Op)
    requires DbInv(db)
    requires !op.Edit? && AnswerOf(db, op).Ok?
    ensures OrderInv(AnswerOf(db, op).value)
  {
    if !op.Create? { assert OrderInv(db.orders[op.orderId]); }
  }

  /** Every state a shop reaches from a good one is good, whatever the calls and their order. */
  lemma {:induction false} RunKeepsInv(db: Db, ops: seq<Op>)
    requires DbInv(db)
    ensures DbInv(Run(db, ops))
    decreases ops
  {
    if ops != [] {
      AfterKeepsInv(db, ops[0]);
      RunKeepsInv(After(db, ops[0]), ops[1..]);
    }
  }

  /** How far an order has come.  Delivered and rejected orders have nowhere left to go. */
  function Progress(s: OrderStatus): nat {
    match s
    case PendingPayment => 0
    case PendingVerification => 1
    case Confirmed => 2
    case ReadyToShip => 3
    case Shipped => 4
    case Delivered => 5
    case Rejected => 6
    case Cancelled => 7
    case Completed => 7
  }

  /** What no call ever changes in an order. */
  predicate SameSale(a: Order, b: Order) {
    && a.userId == b.userId && a.siteId == b.siteId && a.productId == b.productId
    && a.quantity == b.quantity && a.amountPaise == b.amountPaise
    && a.customerName == b.customerName && a.customerPhone == b.customerPhone && a.contactId == b.contactId
  }

  predicate Final(s: OrderStatus) { s == Delivered || s == Rejected }

  /** `b` can follow `a`: the sale is the same, the status is not behind, a final row is untouched and a
      verified payment, once stamped, keeps its stamp. */
  predicate Follows(a: Order, b: Order) {
    && SameSale(a, b)
    && Progress(a.status) <= Progress(b.status)
    && (Final(a.status) ==> a == b)
    && (IsPaid(a.status) ==> IsPaid(b.status) && a.verifiedAt == b.verifiedAt)
    && (a.shipment.Some? ==> a.shipment == b.shipment && a.address == b.address)
  }

  lemma {:induction false} RunOnlyMovesForward(db: Db, ops: seq<Op>, i: nat)
    requires DbInv(db) && i < |db.orders|
    ensures i < |Run(db, ops).orders| && Follows(db.orders[i], Run(db, ops).orders[i])
    decreases ops
  {
    if ops != [] {
      var next := After(db, ops[0]);
      AfterMovesForward(db, ops[0], i);
      AfterKeepsInv(db, ops[0]);
      RunOnlyMovesForward(next, ops[1..], i);
    }
  }

  lemma AfterMovesForward(db: Db, op: Op, i: nat)
    requires DbInv(db) && i < |db.orders|
    ensures i < |After(db, op).orders| && Follows(db.orders[i], After(db, op).orders[i])
  {
    assert OrderInv(db.orders[i]);
    if !op.Edit? && !op.Create? && AnswerOf(db, op).Ok? { AnswerFollows(db, op); }
  }

  lemma AnswerFollows(db: Db, op: Op)
    requires DbInv(db) && !op.Edit? && !op.Create? && AnswerOf(db, op).Ok?
    ensures op.orderId < |db.orders| && Follows(db.orders[op.orderId], AnswerOf(db, op).value)
  {
    assert OrderInv(db.orders[op.orderId]);
  }

  /** `ship` would accept a confirmed order, but in a reachable shop every shipment leaves from
      `ready_to_ship`: a confirmed order never holds an address. */
  lemma ShipsOnlyFromReady(db: Db, userId: nat, orderId: nat, r: ShipRequest, at: int)
    requires DbInv(db)
    ensures ShipAnswer(db, userId, orderId, r, at).Ok?
        ==> db.orders[orderId].status == ReadyToShip && db.orders[orderId].address.value.line != ""
  {
    if Visible(db.orders, userId, orderId) { assert OrderInv(db.orders[orderId]); }
  }

  // ----- runs that answer -----

  /** A call that took effect, and what its caller got. */
  datatype Entry = Entry(op: Op, reply: Reply)

  function OpsOf(log: seq<Entry>): (ops: seq<Op>)
    ensures |ops| == |log| && forall k | 0 <= k < |log| :: ops[k] == log[k].op
  {
    if log == [] then [] else [log[0].op] + OpsOf(log[1..])
  }

  /** Replaying the logged calls one at a time from `db` gives every caller the logged answer. */
  predicate Replays(db: Db, log: seq<Entry>)
    decreases log
  {
    log == [] || (ReplyOf(db, log[0].op) == log[0].reply && Replays(After(db, log[0].op), log[1..]))
  }

  lemma OpsOfAppend(xs: seq<Entry>, ys: seq<Entry>)
    ensures OpsOf(xs + ys) == OpsOf(xs) + OpsOf(ys)
  {
  }

  lemma {:induction false} ReplaysAppend(db: Db, xs: seq<Entry>, ys: seq<Entry>)
    requires Replays(db, xs)
    ensures Replays(db, xs + ys) <==> Replays(Run(db, OpsOf(xs)), ys)
    decreases xs
  {
    if xs == [] {
      assert xs + ys == ys;
    } else {
      var next := After(db, xs[0].op);
      assert (xs + ys)[0] == xs[0] && (xs + ys)[1..] == xs[1..] + ys;
      assert OpsOf(xs)[0] == xs[0].op && OpsOf(xs)[1..] == OpsOf(xs[1..]);
      ReplaysAppend(next, xs[1..], ys);
    }
  }

  /** How often the log decides order `i`, for or against. */
  function Decisions(log: seq<Entry>, i: nat): nat {
    if log == [] then 0
    else
      (if Decides(log[0], i) then 1 else 0) + Decisions(log[1..], i)
  }

  predicate Decides(e: Entry, i: nat) {
    (e.op.Confirm? || e.op.Reject?) && e.op.orderId == i && e.reply.OfOrder? && e.reply.order.Ok?
  }

  /** No order is confirmed twice, rejected twice, or both. */
  lemma {:induction false} AtMostOneDecision(db: Db, log: seq<Entry>, i: nat)
    requires Replays(db, log)
    ensures Decisions(log, i) <= 1
    ensures i < |db.orders| && Progress(db.orders[i].status) >= 2 ==> Decisions(log, i) == 0
    decreases log
  {
    if log != [] {
      AtMostOneDecision(After(db, log[0].op), log[1..], i);
    }
  }

  // ----- stock -----

  /** The units of product `p` this order has taken from stock. */
  function Units(o: Order, p: nat): nat {
    if o.payment == PaymentVerified && o.productId == Some(p) then o.quantity else 0
  }

  function Deducted(orders: seq<Order>, p: nat): nat {
    if orders == [] then 0
    else Deducted(orders[..|orders| - 1], p) + Units(orders[|orders| - 1], p)
  }

  lemma {:induction false} DeductedUpdate(orders: seq<Order>, i: nat, o: Order, p: nat)
    requires i < |orders|
    ensures Deducted(orders[i := o], p) == Deducted(orders, p) - Units(orders[i], p) + Units(o, p)
  {
    var n := |orders| - 1;
    if i == n {
      assert orders[i := o][..n] == orders[..n];
    } else {
      assert orders[i := o][..n] == orders[..n][i := o];
      DeductedUpdate(orders[..n], i, o, p);
    }
  }

  /** By how much the owner changed the stock of `p` over the run. */
  function Adjusted(db: Db, ops: seq<Op>, p: nat): int
    decreases ops
  {
    if ops == [] then 0
    else
      (if ops[0].Edit? && ops[0].productId == p && ops[0].edit.stock.Some? && OwnsProduct(db, ops[0].userId, p)
       then ops[0].edit.stock.value - db.products[p].stock else 0)
      + Adjusted(After(db, ops[0]), ops[1..], p)
  }

  function Total(db: Db, p: nat): int
    requires p < |db.products|
  {
    db.products[p].stock + Deducted(db.orders, p)
  }

  lemma AfterConserves(db: Db, op: Op, p: nat)
    requires DbInv(db) && p < |db.products|
    ensures |After(db, op).products| == |db.products|
    ensures Total(After(db, op), p) == Total(db, p) + Adjusted(db, [op], p)
  {
    assert Adjusted(After(db, op), [op][1..], p) == 0;
    if !op.Edit? && AnswerOf(db, op).Ok? {
      if op.Create? { CreateConserves(db, op, p); } else { DecisionConserves(db, op, p); }
    }
  }

  lemma CreateConserves(db: Db, op: Op, p: nat)
    requires p < |db.products| && op.Create? && AnswerOf(db, op).Ok?
    ensures p < |After(db, op).products| && Total(After(db, op), p) == Total(db, p)
  {
    var o := AnswerOf(db, op).value;
    assert (db.orders + [o])[..|db.orders|] == db.orders;
  }

  /** What an order takes, stock loses; only `confirm` makes one take. */
  lemma DecisionConserves(db: Db, op: Op, p: nat)
    requires DbInv(db) && p < |db.products| && !op.Edit? && !op.Create? && AnswerOf(db, op).Ok?
    ensures p < |After(db, op).products| && Total(After(db, op), p) == Total(db, p)
  {
    DeductedUpdate(db.orders, op.orderId, AnswerOf(db, op).value, p);
    if op.Confirm? { ConfirmTakes(db, op, p); } else { OthersTakeNothing(db, op, p); }
  }

  lemma ConfirmTakes(db: Db, op: Op, p: nat)
    requires DbInv(db) && p < |db.products| && op.Confirm? && AnswerOf(db, op).Ok?
    ensures p < |After(db, op).products| && After(db, op).orders == db.orders[op.orderId := AnswerOf(db, op).value]
    ensures db.products[p].stock - After(db, op).products[p].stock
         == Units(AnswerOf(db, op).value, p) - Units(db.orders[op.orderId], p)
  {
    assert OrderInv(db.orders[op.orderId]);
  }

  lemma OthersTakeNothing(db: Db, op: Op, p: nat)
    requires DbInv(db) && p < |db.products|
    requires !op.Edit? && !op.Create? && !op.Confirm? && AnswerOf(db, op).Ok?
    ensures After(db, op).products == db.products
    ensures After(db, op).orders == db.orders[op.orderId := AnswerOf(db, op).value]
    ensures Units(AnswerOf(db, op).value, p) == Units(db.orders[op.orderId], p)
  {
    assert OrderInv(db.orders[op.orderId]);
  }

  /** Conservation: what is left plus what orders took is what was there plus what the owner put in. */
  lemma {:induction false} RunConserves(db: Db, ops: seq<Op>, p: nat)
    requires DbInv(db) && p < |db.products|
    ensures |Run(db, ops).products| == |db.products|
    ensures Total(Run(db, ops), p) == Total(db, p) + Adjusted(db, ops, p)
    decreases ops
  {
    if ops != [] {
      AfterConserves(db, ops[0], p);
      AfterKeepsInv(db, ops[0]);
      assert Adjusted(After(db, ops[0]), [ops[0]][1..], p) == 0;
      RunConserves(After(db, ops[0]), ops[1..], p);
    }
  }

  /** No oversell: orders never take more units than there ever were. */
  lemma RunNeverOversells(db: Db, ops: seq<Op>, p: nat)
    requires DbInv(db) && p < |db.products|
    ensures p < |Run(db, ops).products| && Run(db, ops).products[p].stock >= 0
    ensures Deducted(Run(db, ops).orders, p) <= Total(db, p) + Adjusted(db, ops, p)
  {
    RunConserves(db, ops, p);
    RunKeepsInv(db, ops);
  }
}
