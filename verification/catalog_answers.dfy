/**
 * What the order service answers, read off the columns of the tables, and what the orders are worth: in a shop
 * whose orders were all made by it, every call succeeds exactly when the rows say so.
 */
module CatalogAnswers {
  import opened Wrappers
  import opened Text
  import opened CatalogOrders

  // ----- prices -----

  /** A product without a price costs nothing. */
  function PriceOf(p: Product): nat { if p.pricePaise.Some? then p.pricePaise.value else 0 }

  /** An order is for a product of its own site. */
  predicate OnSite(products: seq<Product>, o: Order) {
    o.productId.Some? && o.productId.value < |products| && products[o.productId.value].siteId == o.siteId
  }

  ghost predicate AllOnSite(db: Db) { forall i | 0 <= i < |db.orders| :: OnSite(db.products, db.orders[i]) }

  /** And asks for its price. */
  predicate Priced(products: seq<Product>, o: Order) {
    OnSite(products, o) && o.amountPaise == o.quantity * PriceOf(products[o.productId.value])
  }

  ghost predicate AllPriced(db: Db) { forall i | 0 <= i < |db.orders| :: Priced(db.products, db.orders[i]) }

  /** No call moves a product to another site. */
  predicate SameSites(a: seq<Product>, b: seq<Product>) {
    |a| == |b| && forall p | 0 <= p < |a| :: a[p].siteId == b[p].siteId
  }

  lemma AfterKeepsSites(db: Db, op: Op)
    ensures SameSites(db.products, After(db, op).products)
  {
  }

  lemma AfterKeepsOnSite(db: Db, op: Op)
    requires DbInv(db) && AllOnSite(db)
    ensures AllOnSite(After(db, op))
  {
    AfterKeepsSites(db, op);
    var next := After(db, op);
    forall i | 0 <= i < |next.orders| ensures OnSite(next.products, next.orders[i]) {
      if i < |db.orders| {
        AfterMovesForward(db, op, i);
        assert OnSite(db.products, db.orders[i]);
      }
    }
  }

  ghost predicate Ordered(db: Db, p: nat) { exists i :: 0 <= i < |db.orders| && db.orders[i].productId == Some(p) }

  /** The call gives a product that has been ordered another price. */
  ghost predicate Reprices(db: Db, op: Op) {
    && op.Edit? && OwnsProduct(db, op.userId, op.productId) && Ordered(db, op.productId)
    && PriceOf(Edited(db.products[op.productId], op.edit)) != PriceOf(db.products[op.productId])
  }

  /** Orders go on asking for the prices of their products exactly as long as no ordered product is repriced. */
  lemma AfterKeepsPricesIff(db: Db, op: Op)
    requires DbInv(db) && AllPriced(db)
    ensures AllPriced(After(db, op)) <==> !Reprices(db, op)
  {
    var next := After(db, op);
    if Reprices(db, op) {
      var i :| 0 <= i < |db.orders| && db.orders[i].productId == Some(op.productId);
      assert Priced(db.products, db.orders[i]) && OrderInv(db.orders[i]);
      assert !Priced(next.products, next.orders[i]);
    } else {
      forall i | 0 <= i < |next.orders| ensures Priced(next.products, next.orders[i]) {
        StaysPriced(db, op, i);
      }
    }
  }

  lemma StaysPriced(db: Db, op: Op, i: nat)
    requires DbInv(db) && AllPriced(db) && !Reprices(db, op) && i < |After(db, op).orders|
    ensures Priced(After(db, op).products, After(db, op).orders[i])
  {
    AfterKeepsSites(db, op);
    if i < |db.orders| {
      AfterMovesForward(db, op, i);
      assert Priced(db.products, db.orders[i]);
      var p := db.orders[i].productId.value;
      assert Ordered(db, p);
      assert PriceOf(After(db, op).products[p]) == PriceOf(db.products[p]);
    }
  }

  /** No call of the run reprices a product that has been ordered by then. */
  ghost predicate NoRepricing(db: Db, ops: seq<Op>)
    decreases ops
  {
    ops == [] || (!Reprices(db, ops[0]) && NoRepricing(After(db, ops[0]), ops[1..]))
  }

  /** In every such run each order asks for its quantity times the price of its product. */
  lemma {:induction false} RunKeepsPrices(db: Db, ops: seq<Op>)
    requires DbInv(db) && AllPriced(db) && NoRepricing(db, ops)
    ensures AllPriced(Run(db, ops))
    decreases ops
  {
    if ops != [] {
      AfterKeepsInv(db, ops[0]);
      AfterKeepsPricesIff(db, ops[0]);
      RunKeepsPrices(After(db, ops[0]), ops[1..]);
    }
  }

  /** Whatever is repriced later, an order goes on asking for what its product cost when it was created. */
  lemma AmountStays(db: Db, userId: nat, r: CreateRequest, later: seq<Op>)
    requires DbInv(db) && CreateAnswer(db, userId, r).Ok?
    ensures
      var i, orders := |db.orders|, Run(After(db, Create(userId, r)), later).orders;
      i < |orders| && orders[i].productId == Some(r.productId) && orders[i].quantity == 1
      && orders[i].amountPaise == PriceOf(db.products[r.productId])
  {
    AfterKeepsInv(db, Create(userId, r));
    RunOnlyMovesForward(After(db, Create(userId, r)), later, |db.orders|);
  }

  /** The money of the orders with a verified payment. */
  function VerifiedIncome(orders: seq<Order>): nat {
    if orders == [] then 0
    else
      VerifiedIncome(orders[..|orders| - 1])
      + if orders[|orders| - 1].payment == PaymentVerified then orders[|orders| - 1].amountPaise else 0
  }

  /** Price times units taken, over the first `n` products. */
  function SoldWorth(products: seq<Product>, orders: seq<Order>, n: nat): nat
    requires n <= |products|
  {
    if n == 0 then 0 else SoldWorth(products, orders, n - 1) + PriceOf(products[n - 1]) * Deducted(orders, n - 1)
  }

  /** One more order adds its worth at its own product and nothing elsewhere. */
  lemma {:induction false} OneMoreSold(products: seq<Product>, orders: seq<Order>, o: Order, n: nat)
    requires n <= |products| && Priced(products, o)
    ensures SoldWorth(products, orders + [o], n) == SoldWorth(products, orders, n)
         + if o.payment == PaymentVerified && o.productId.value < n then o.amountPaise else 0
    decreases n
  {
    if n > 0 {
      OneMoreSold(products, orders, o, n - 1);
      OneMoreDeducted(orders, o, n - 1);
      Distribute(PriceOf(products[n - 1]), Deducted(orders, n - 1), Units(o, n - 1));
    }
  }

  lemma OneMoreDeducted(orders: seq<Order>, o: Order, p: nat)
    ensures Deducted(orders + [o], p) == Deducted(orders, p) + Units(o, p)
  {
    assert (orders + [o])[..|orders|] == orders;
  }

  lemma Distribute(price: nat, before: nat, units: nat)
    ensures price * (before + units) == price * before + price * units
    ensures units == 0 ==> price * units == 0
    ensures price * units == units * price
  {
  }

  /** The verified income of a shop is the price of each product times the units taken from its stock. */
  lemma {:induction false} IncomeIsPriceTimesUnits(products: seq<Product>, orders: seq<Order>)
    requires forall i | 0 <= i < |orders| :: Priced(products, orders[i])
    ensures VerifiedIncome(orders) == SoldWorth(products, orders, |products|)
    decreases orders
  {
    if orders == [] {
      NothingSold(products, |products|);
    } else {
      var n := |orders| - 1;
      IncomeIsPriceTimesUnits(products, orders[..n]);
      OneMoreSold(products, orders[..n], orders[n], |products|);
      assert orders[..n] + [orders[n]] == orders;
    }
  }

  lemma {:induction false} NothingSold(products: seq<Product>, n: nat)
    requires n <= |products|
    ensures SoldWorth(products, [], n) == 0
  {
    if n > 0 { NothingSold(products, n - 1); }
  }

  /** Whatever calls a shop that starts without orders has served, ordered products not repriced. */
  lemma RunIncome(db: Db, ops: seq<Op>)
    requires DbInv(db) && db.orders == [] && NoRepricing(db, ops)
    ensures
      var now := Run(db, ops);
      AllPriced(now) && VerifiedIncome(now.orders) == SoldWorth(now.products, now.orders, |now.products|)
  {
    RunKeepsPrices(db, ops);
    IncomeIsPriceTimesUnits(Run(db, ops).products, Run(db, ops).orders);
  }

  // ----- when each call succeeds -----

  /** The row with id `i`, if it is there and the caller's. */
  predicate Mine(db: Db, userId: nat, i: nat) { i < |db.orders| && db.orders[i].userId == userId }

  /** Free text as it is stored: trimmed, or the fallback where nothing is left. */
  predicate Cleaned(raw: Option<string>, fallback: Option<string>, stored: Option<string>) {
    if raw.None? || Trim(raw.value) == "" then stored == fallback else stored == Some(Trim(raw.value))
  }

  /** A create succeeds exactly for an active product of the caller's site that is in stock, with payments set up
      and no contact or one of the caller's own. */
  lemma CreateOkIff(db: Db, userId: nat, r: CreateRequest)
    ensures CreateAnswer(db, userId, r).Ok? <==>
      (&& userId in db.shop.sites && r.productId < |db.products|
       && db.products[r.productId].siteId == db.shop.sites[userId].id
       && db.products[r.productId].isActive && db.products[r.productId].stock >= 1
       && db.shop.sites[userId].paymentsEnabled && db.shop.sites[userId].qrMedia.Some?
       && (r.contactId.None?
           || (r.contactId.value in db.shop.contacts && db.shop.contacts[r.contactId.value] == userId)))
  {
  }

  /** The new order waits for payment of the product's price, and nothing else changes. */
  lemma CreateAdds(db: Db, userId: nat, r: CreateRequest)
    requires CreateAnswer(db, userId, r).Ok?
    ensures
      var next := After(db, Create(userId, r));
      var o := next.orders[|db.orders|];
      && next.products == db.products && next.orders[..|db.orders|] == db.orders && |next.orders| == |db.orders| + 1
      && CreateAnswer(db, userId, r).value == o
      && o.userId == userId && o.productId == Some(r.productId) && o.quantity == 1
      && Priced(db.products, o) && o.amountPaise == PriceOf(db.products[r.productId])
      && o.status == PendingPayment && o.payment == PaymentPending && o.contactId == r.contactId && OrderInv(o)
      && Cleaned(r.customerName, None, o.customerName) && Cleaned(r.customerPhone, None, o.customerPhone)
  {
  }

  /** The product an order can be taken from. */
  predicate InStock(db: Db, o: Order) {
    && o.productId.Some? && o.productId.value < |db.products|
    && db.products[o.productId.value].siteId == o.siteId && db.products[o.productId.value].stock >= 1
  }

  /** A confirm succeeds exactly when the caller's order waits for verification and its product has a unit left;
      whether the product is still on sale does not matter. */
  lemma ConfirmOkIff(db: Db, userId: nat, i: nat, at: int)
    requires DbInv(db)
    ensures
      var answer := ConfirmAnswer(db, userId, i, at);
      && (answer.Ok? <==>
            Mine(db, userId, i) && db.orders[i].status == PendingVerification && InStock(db, db.orders[i]))
      && (answer == Err(OrderNotFound) <==> !Mine(db, userId, i))
      && (answer == Err(InsufficientStock) <==>
            Mine(db, userId, i) && db.orders[i].status == PendingVerification && !InStock(db, db.orders[i]))
      && (Mine(db, userId, i) && db.orders[i].status != PendingVerification <==>
            answer.Err? && answer.error.CannotConfirm?)
  {
    if Mine(db, userId, i) { assert OrderInv(db.orders[i]); }
  }

  /** Every order but one, and every product but one, is what it was. */
  predicate OnlyOrder(a: Db, b: Db, i: nat) {
    |a.orders| == |b.orders| && a.shop == b.shop
    && forall k | 0 <= k < |a.orders| && k != i :: a.orders[k] == b.orders[k]
  }

  predicate OnlyStock(a: Db, b: Db, p: nat) {
    |a.products| == |b.products|
    && (forall q | 0 <= q < |a.products| && q != p :: a.products[q] == b.products[q])
    && (p < |a.products| ==> a.products[p].(stock := b.products[p].stock) == b.products[p])
  }

  /** A confirmed order is paid for, and its product has one unit less. */
  lemma ConfirmTakesOne(db: Db, userId: nat, i: nat, at: int)
    requires DbInv(db) && ConfirmAnswer(db, userId, i, at).Ok?
    ensures
      var next := After(db, Confirm(userId, i, at));
      var was, p := db.orders[i], db.orders[i].productId.value;
      && OnlyOrder(db, next, i) && OnlyStock(db, next, p) && p < |db.products|
      && next.products[p].stock == db.products[p].stock - 1
      && var o := next.orders[i];
         && ConfirmAnswer(db, userId, i, at).value == o && SameSale(was, o)
         && o.status == Confirmed && o.payment == PaymentVerified && o.screenshot == was.screenshot
         && o.verifiedAt == Some(at) && o.verifiedBy == Some(userId)
  {
    assert OrderInv(db.orders[i]);
  }

  /** A rejection needs no stock and takes none. */
  lemma RejectOkIff(db: Db, userId: nat, i: nat, reason: Option<string>, at: int)
    ensures
      var answer := RejectAnswer(db, userId, i, reason, at);
      && (answer.Ok? <==> Mine(db, userId, i) && db.orders[i].status == PendingVerification)
      && (answer.Ok? ==>
            var next := After(db, Reject(userId, i, reason, at));
            && OnlyOrder(db, next, i) && next.products == db.products
            && var o := next.orders[i];
               && answer.value == o && SameSale(db.orders[i], o) && o.screenshot == db.orders[i].screenshot
               && o.status == Rejected && o.payment == PaymentRejected
               && o.verifiedAt == Some(at) && o.verifiedBy == Some(userId)
               && Cleaned(reason, None, o.rejectionReason))
  {
  }

  /** A waiting order can be decided for or against exactly when it has a unit to take, and else only against. */
  lemma DecisionsOpen(db: Db, userId: nat, i: nat, reason: Option<string>, at: int)
    requires DbInv(db)
    ensures ConfirmAnswer(db, userId, i, at).Ok? <==>
      RejectAnswer(db, userId, i, reason, at).Ok? && InStock(db, db.orders[i])
  {
    ConfirmOkIff(db, userId, i, at);
    RejectOkIff(db, userId, i, reason, at);
  }

  lemma AttachOkIff(db: Db, userId: nat, i: nat, mediaId: nat)
    ensures
      var answer := AttachAnswer(db, userId, i, mediaId);
      && (answer.Ok? <==>
            && Mine(db, userId, i) && db.orders[i].status in {PendingPayment, PendingVerification}
            && mediaId < |db.shop.media| && db.shop.media[mediaId] == Media(db.orders[i].siteId, true))
      && (answer.Ok? ==>
            var next := After(db, Attach(userId, i, mediaId));
            && OnlyOrder(db, next, i) && next.products == db.products
            && var o := next.orders[i];
               && answer.value == o && SameSale(db.orders[i], o) && o.screenshot == Some(mediaId)
               && o.status == PendingVerification && o.payment == PaymentSubmitted)
  {
  }

  /** The address stored for a request: name and phone fall back to the customer's, the pincode is at most twelve of the
      digits given. */
  predicate IsAddress(r: AddressRequest, o: Order, a: Address) {
    && a.line == Trim(r.line)
    && a.pincode <= Digits(r.pincode) && |a.pincode| == (if |Digits(r.pincode)| > 12 then 12 else |Digits(r.pincode)|)
    && Cleaned(r.name, o.customerName, a.name) && Cleaned(r.phone, o.customerPhone, a.phone)
    && Cleaned(r.city, None, a.city) && Cleaned(r.state, None, a.state) && Cleaned(r.landmark, None, a.landmark)
  }

  lemma SetAddressOkIff(db: Db, userId: nat, i: nat, r: AddressRequest)
    ensures
      var answer := SetAddressAnswer(db, userId, i, r);
      && (answer.Ok? <==>
            Mine(db, userId, i) && db.orders[i].status in {Confirmed, ReadyToShip} && |Digits(r.pincode)| >= 6)
      && (answer.Ok? ==>
            var next := After(db, SetAddress(userId, i, r));
            && OnlyOrder(db, next, i) && next.products == db.products
            && var o := next.orders[i];
               && answer.value == o && SameSale(db.orders[i], o) && o.status == ReadyToShip
               && o.payment == db.orders[i].payment && o.verifiedAt == db.orders[i].verifiedAt
               && o.address.Some? && IsAddress(r, db.orders[i], o.address.value))
  {
  }

  /** In a good shop a shipment leaves exactly from `ready_to_ship`, with a line in its address and a tracking number of
      three characters or more. */
  lemma ShipOkIff(db: Db, userId: nat, i: nat, r: ShipRequest, at: int)
    requires DbInv(db)
    ensures
      var answer := ShipAnswer(db, userId, i, r, at);
      && (answer.Ok? <==>
            && Mine(db, userId, i) && db.orders[i].status == ReadyToShip
            && db.orders[i].address.Some? && db.orders[i].address.value.line != "" && |Trim(r.tracking)| >= 3)
      && (answer.Ok? ==>
            var next := After(db, Ship(userId, i, r, at));
            && OnlyOrder(db, next, i) && next.products == db.products
            && var o := next.orders[i];
               && answer.value == o && SameSale(db.orders[i], o) && o.status == Shipped
               && o.payment == db.orders[i].payment && o.address == db.orders[i].address
               && o.shipment.Some? && o.shipment.value.tracking == Trim(r.tracking) && o.shipment.value.at == at
               && Cleaned(r.courier, None, o.shipment.value.courier)
               && Cleaned(r.url, r.inferredUrl, o.shipment.value.url))
  {
    if Mine(db, userId, i) { assert OrderInv(db.orders[i]); }
  }

  lemma DeliverOkIff(db: Db, userId: nat, i: nat, at: int)
    ensures
      var answer := DeliverAnswer(db, userId, i, at);
      && (answer.Ok? <==> Mine(db, userId, i) && db.orders[i].status == Shipped)
      && (answer.Ok? ==>
            var next := After(db, Deliver(userId, i, at));
            && OnlyOrder(db, next, i) && next.products == db.products
            && var o := next.orders[i];
               && answer.value == o && SameSale(db.orders[i], o) && o.status == Delivered
               && o.payment == db.orders[i].payment && o.deliveredAt == Some(at))
  {
  }

  /** A product update succeeds exactly for a product of the caller's site, and changes the columns it was given. */
  lemma EditOkIff(db: Db, userId: nat, p: nat, edit: ProductEdit)
    ensures
      var answer := EditAnswer(db, userId, p, edit);
      && (answer.Ok? <==>
            userId in db.shop.sites && p < |db.products| && db.products[p].siteId == db.shop.sites[userId].id)
      && (answer.Ok? ==>
            var next := After(db, Edit(userId, p, edit));
            && next.orders == db.orders && next.shop == db.shop && |next.products| == |db.products|
            && (forall q | 0 <= q < |db.products| && q != p :: next.products[q] == db.products[q])
            && answer.value == next.products[p]
            && var was, product := db.products[p], next.products[p];
               && product.siteId == was.siteId
               && (if edit.stock.Some? then product.stock == edit.stock.value else product.stock == was.stock)
               && (if edit.isActive.Some? then product.isActive == edit.isActive.value
                   else product.isActive == was.isActive)
               && (if edit.price.Some? then product.pricePaise == edit.price.value
                   else product.pricePaise == was.pricePaise))
  {
  }

  /** Taking a product off sale stops new orders for it, and no confirmation. */
  lemma OffSaleStillConfirms(db: Db, owner: nat, p: nat, userId: nat, r: CreateRequest, i: nat, at: int)
    requires DbInv(db) && EditAnswer(db, owner, p, ProductEdit(None, Some(false), None)).Ok?
    ensures
      var off := After(db, Edit(owner, p, ProductEdit(None, Some(false), None)));
      && (r.productId == p ==> CreateAnswer(off, userId, r).Err?)
      && (ConfirmAnswer(off, userId, i, at) == ConfirmAnswer(db, userId, i, at))
  {
    var edit := Edit(owner, p, ProductEdit(None, Some(false), None));
    AfterKeepsInv(db, edit);
    EditOkIff(db, owner, p, edit.edit);
    CreateOkIff(After(db, edit), userId, r);
  }

  // ----- the whole way -----

  /** The calls that get an order paid for, and those that get it to the customer. */
  function Paying(userId: nat, i: nat, create: CreateRequest, mediaId: nat, at: int): seq<Op> {
    [Create(userId, create), Attach(userId, i, mediaId), Confirm(userId, i, at)]
  }

  function Sending(userId: nat, i: nat, address: AddressRequest, ship: ShipRequest, at: int): seq<Op> {
    [SetAddress(userId, i, address), Ship(userId, i, ship, at), Deliver(userId, i, at)]
  }

  lemma RunFirst(db: Db, op: Op, rest: seq<Op>)
    ensures Run(db, [op] + rest) == Run(After(db, op), rest)
  {
    assert ([op] + rest)[1..] == rest;
  }

  lemma RunThree(db: Db, a: Op, b: Op, c: Op)
    ensures Run(db, [a, b, c]) == After(After(After(db, a), b), c)
  {
    RunFirst(db, a, [b, c]);
    RunFirst(After(db, a), b, [c]);
    RunFirst(After(After(db, a), b), c, []);
    assert [a] + [b, c] == [a, b, c] && [b] + [c] == [b, c] && [c] + [] == [c];
  }

  /** An order that can be created, with a screenshot of its own site, can be paid for. */
  lemma OrderGetsPaid(db: Db, userId: nat, create: CreateRequest, mediaId: nat, at: int)
    requires DbInv(db) && CreateAnswer(db, userId, create).Ok?
    requires mediaId < |db.shop.media| && db.shop.media[mediaId] == Media(db.shop.sites[userId].id, true)
    ensures
      var i, p := |db.orders|, create.productId;
      var paid := Run(db, Paying(userId, i, create, mediaId, at));
      && DbInv(paid) && Mine(paid, userId, i) && paid.orders[i].status == Confirmed && p < |paid.products|
      && paid.orders[i].amountPaise == PriceOf(db.products[p])
      && paid.products[p].stock == db.products[p].stock - 1
  {
    var i := |db.orders|;
    var created := After(db, Create(userId, create));
    CreateAdds(db, userId, create);
    AfterKeepsInv(db, Create(userId, create));
    var attached := After(created, Attach(userId, i, mediaId));
    AttachOkIff(created, userId, i, mediaId);
    AfterKeepsInv(created, Attach(userId, i, mediaId));
    ConfirmOkIff(attached, userId, i, at);
    ConfirmTakesOne(attached, userId, i, at);
    AfterKeepsInv(attached, Confirm(userId, i, at));
    RunThree(db, Create(userId, create), Attach(userId, i, mediaId), Confirm(userId, i, at));
  }

  /** A paid order with a usable address and tracking number reaches its customer. */
  lemma OrderGetsDelivered(
    db: Db, userId: nat, i: nat, address: AddressRequest, ship: ShipRequest, at: int)
    requires DbInv(db) && Mine(db, userId, i) && db.orders[i].status == Confirmed
    requires |Digits(address.pincode)| >= 6 && Trim(address.line) != "" && |Trim(ship.tracking)| >= 3
    ensures
      var sent := Run(db, Sending(userId, i, address, ship, at));
      && DbInv(sent) && Mine(sent, userId, i) && sent.orders[i].status == Delivered
      && sent.orders[i].payment == PaymentVerified && SameSale(db.orders[i], sent.orders[i])
      && sent.products == db.products
  {
    assert OrderInv(db.orders[i]);
    var addressed := After(db, SetAddress(userId, i, address));
    SetAddressOkIff(db, userId, i, address);
    AfterKeepsInv(db, SetAddress(userId, i, address));
    var shipped := After(addressed, Ship(userId, i, ship, at));
    ShipOkIff(addressed, userId, i, ship, at);
    AfterKeepsInv(addressed, Ship(userId, i, ship, at));
    DeliverOkIff(shipped, userId, i, at);
    AfterKeepsInv(shipped, Deliver(userId, i, at));
    RunThree(db, SetAddress(userId, i, address), Ship(userId, i, ship, at), Deliver(userId, i, at));
  }
}
