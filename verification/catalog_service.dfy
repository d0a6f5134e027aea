/**
 * The order service over mutable tables.  Each method runs the server's statements one after the other
 * and is proved to do to the tables, and to answer, what `CatalogOrders` says.
 */
module CatalogService {
  import opened Wrappers
  import opened Text
  import opened CatalogOrders

  datatype ShipItem = ShipItem(orderId: nat, request: ShipRequest, at: int)

  datatype ShipResult = ShipResult(orderId: nat, answer: Answer)

  function ShipOps(userId: nat, items: seq<ShipItem>): (ops: seq<Op>)
    ensures |ops| == |items|
    ensures forall k | 0 <= k < |items| :: ops[k] == Ship(userId, items[k].orderId, items[k].request, items[k].at)
  {
    seq(|items|, k requires 0 <= k < |items| => Ship(userId, items[k].orderId, items[k].request, items[k].at))
  }

  function CountOk(results: seq<ShipResult>): nat {
    if results == [] then 0
    else CountOk(results[..|results| - 1]) + (if results[|results| - 1].answer.Ok? then 1 else 0)
  }

  class CatalogOrdersService {
    const shop: Shop
    var products: seq<Product>
    var orders: seq<Order>

    function Tables(): Db
      reads this
    {
      Db(shop, products, orders)
    }

    constructor (shop: Shop, products: seq<Product>)
      requires forall p | 0 <= p < |products| :: products[p].stock >= 0
      ensures Tables() == Db(shop, products, []) && DbInv(Tables())
    {
      this.shop, this.products, this.orders := shop, products, [];
    }

    /** `updateMany` with the confirm `where`: claims the row if it still waits, and counts. */
    method ClaimForConfirm(userId: nat, orderId: nat, at: int) returns (count: nat)
      modifies this`orders
      ensures count == if old(Confirmable(orders, userId, orderId)) then 1 else 0
      ensures count == 0 ==> orders == old(orders)
      ensures count == 1 ==> orders == old(orders[orderId := Claimed(orders[orderId], userId, at)])
    {
      count := 0;
      if Confirmable(orders, userId, orderId) {
        orders := orders[orderId := Claimed(orders[orderId], userId, at)];
        count := 1;
      }
    }

    /** `updateMany` with `stockQuantity >= quantity`: decrements, and counts. */
    method DecrementStock(productId: nat, siteId: nat, quantity: nat) returns (count: nat)
      modifies this`products
      ensures count == if old(Deductible(products, productId, siteId, quantity)) then 1 else 0
      ensures count == 0 ==> products == old(products)
      ensures count == 1 ==> products == Deduct(old(products), productId, quantity)
    {
      count := 0;
      if Deductible(products, productId, siteId, quantity) {
        products := Deduct(products, productId, quantity);
        count := 1;
      }
    }

    method Confirm(userId: nat, orderId: nat, at: int) returns (answer: Answer)
      modifies this
      ensures answer == ConfirmAnswer(old(Tables()), userId, orderId, at)
      ensures Tables() == After(old(Tables()), Op.Confirm(userId, orderId, at))
    {
      if !Confirmable(orders, userId, orderId) {
        if !Visible(orders, userId, orderId) { return Err(OrderNotFound); }
        return Err(CannotConfirm(orders[orderId].status));
      }
      var order := orders[orderId];
      if order.productId.None? { return Err(NoProduct); }
      var beforeTransaction := orders;
      var claimed := ClaimForConfirm(userId, orderId, at);
      if claimed == 0 {
        assert false; // only another transaction could have taken the row: see CatalogTransactions
      }
      var deducted := DecrementStock(order.productId.value, order.siteId, order.quantity);
      if deducted == 0 {
        orders := orders[orderId := Unclaimed(orders[orderId])];
        orders := beforeTransaction; // the exception rolls the transaction back
        return Err(InsufficientStock);
      }
      return Ok(orders[orderId]);
    }

    method Reject(userId: nat, orderId: nat, reason: Option<string>, at: int) returns (answer: Answer)
      modifies this`orders
      ensures answer == RejectAnswer(old(Tables()), userId, orderId, reason, at)
      ensures Tables() == After(old(Tables()), Op.Reject(userId, orderId, reason, at))
    {
      if Rejectable(orders, userId, orderId) {
        orders := orders[orderId := Refused(orders[orderId], userId, reason, at)];
        return Ok(orders[orderId]);
      }
      if !Visible(orders, userId, orderId) { return Err(OrderNotFound); }
      return Err(CannotReject(orders[orderId].status));
    }

    method RequireOrder(userId: nat, orderId: nat) returns (answer: Answer)
      ensures answer == if Visible(orders, userId, orderId) then Ok(orders[orderId]) else Err(OrderNotFound)
    {
      if orderId < |orders| && orders[orderId].userId == userId { return Ok(orders[orderId]); }
      return Err(OrderNotFound);
    }

    method Create(userId: nat, request: CreateRequest) returns (answer: Answer)
      modifies this`orders
      ensures answer == CreateAnswer(old(Tables()), userId, request)
      ensures Tables() == After(old(Tables()), Op.Create(userId, request))
    {
      if userId !in shop.sites { return Err(SiteNotFound); }
      var site := shop.sites[userId];
      if request.productId >= |products| || products[request.productId].siteId != site.id {
        return Err(ProductNotFound);
      }
      var product := products[request.productId];
      if !product.isActive { return Err(ProductInactive); }
      if product.stock < ORDER_QUANTITY { return Err(OutOfStock); }
      var paymentsReady := site.paymentsEnabled && site.qrMedia.Some?;
      if !paymentsReady { return Err(PaymentsNotConfigured); }
      if request.contactId.Some? {
        var contact := request.contactId.value;
        if contact !in shop.contacts || shop.contacts[contact] != userId { return Err(ContactNotFound); }
      }
      var quantity := ORDER_QUANTITY;
      var unitPrice := 0;
      if product.pricePaise.Some? { unitPrice := product.pricePaise.value; }
      var created := Order(
        userId, site.id, Some(request.productId), quantity, unitPrice * quantity,
        TrimOr(request.customerName, None), TrimOr(request.customerPhone, None), request.contactId,
        PaymentPending, PendingPayment, None, None, None, None, None, None, None);
      orders := orders + [created];
      return Ok(created);
    }

    method AttachScreenshot(userId: nat, orderId: nat, mediaId: nat) returns (answer: Answer)
      modifies this`orders
      ensures answer == AttachAnswer(old(Tables()), userId, orderId, mediaId)
      ensures Tables() == After(old(Tables()), Op.Attach(userId, orderId, mediaId))
    {
      answer := RequireOrder(userId, orderId);
      if answer.Err? { return; }
      var order := answer.value;
      if order.status != PendingPayment && order.status != PendingVerification { return Err(NotPayable); }
      if mediaId >= |shop.media| || shop.media[mediaId].siteId != order.siteId { return Err(MediaNotFound); }
      if !shop.media[mediaId].isImage { return Err(MediaNotImage); }
      var updated := order.(screenshot := Some(mediaId), payment := PaymentSubmitted, status := PendingVerification);
      orders := orders[orderId := updated];
      return Ok(updated);
    }

    method SetShippingAddress(userId: nat, orderId: nat, request: AddressRequest) returns (answer: Answer)
      modifies this`orders
      ensures answer == SetAddressAnswer(old(Tables()), userId, orderId, request)
      ensures Tables() == After(old(Tables()), Op.SetAddress(userId, orderId, request))
    {
      answer := RequireOrder(userId, orderId);
      if answer.Err? { return; }
      var order := answer.value;
      if order.status != Confirmed && order.status != ReadyToShip { return Err(CannotSetAddress(order.status)); }
      var pincode := Pincode(request.pincode);
      if |pincode| < 6 { return Err(BadPincode); }
      var address := Address(
        TrimOr(request.name, order.customerName), Trim(request.line), TrimOr(request.city, None),
        TrimOr(request.state, None), pincode, TrimOr(request.landmark, None),
        TrimOr(request.phone, order.customerPhone));
      var updated := order.(address := Some(address), status := ReadyToShip);
      orders := orders[orderId := updated];
      return Ok(updated);
    }

    method ShipOne(userId: nat, orderId: nat, request: ShipRequest, at: int) returns (answer: Answer)
      modifies this`orders
      ensures answer == ShipAnswer(old(Tables()), userId, orderId, request, at)
      ensures Tables() == After(old(Tables()), Ship(userId, orderId, request, at))
    {
      answer := RequireOrder(userId, orderId);
      if answer.Err? { return; }
      var order := answer.value;
      if order.status != ReadyToShip && order.status != Confirmed { return Err(CannotShip(order.status)); }
      if order.address.None? || order.address.value.line == "" || order.address.value.pincode == "" {
        return Err(NoAddress);
      }
      var tracking := Trim(request.tracking);
      if |tracking| < 3 { return Err(NoTracking); }
      var shipment := Shipment(tracking, TrimOr(request.courier, None), TrimOr(request.url, request.inferredUrl), at);
      var updated := order.(status := Shipped, shipment := Some(shipment));
      orders := orders[orderId := updated];
      return Ok(updated);
    }

    method MarkDelivered(userId: nat, orderId: nat, at: int) returns (answer: Answer)
      modifies this`orders
      ensures answer == DeliverAnswer(old(Tables()), userId, orderId, at)
      ensures Tables() == After(old(Tables()), Deliver(userId, orderId, at))
    {
      answer := RequireOrder(userId, orderId);
      if answer.Err? { return; }
      var order := answer.value;
      if order.status != Shipped { return Err(CannotDeliver(order.status)); }
      var updated := order.(status := Delivered, deliveredAt := Some(at));
      orders := orders[orderId := updated];
      return Ok(updated);
    }

    /** The owner changes the stock, the price or the visibility of a product. */
    method UpdateProduct(userId: nat, productId: nat, edit: ProductEdit) returns (answer: Result<Product, Error>)
      modifies this`products
      ensures answer == EditAnswer(old(Tables()), userId, productId, edit)
      ensures Tables() == After(old(Tables()), Edit(userId, productId, edit))
    {
      if userId !in shop.sites { return Err(SiteNotFound); }
      if productId >= |products| || products[productId].siteId != shop.sites[userId].id { return Err(ProductNotFound); }
      var product := products[productId];
      if edit.price.Some? { product := product.(pricePaise := edit.price.value); }
      if edit.isActive.Some? { product := product.(isActive := edit.isActive.value); }
      if edit.stock.Some? { product := product.(stock := edit.stock.value); }
      products := products[productId := product];
      return Ok(products[productId]);
    }

    /** Ships a batch.  A failing item is recorded and the batch goes on, so the tables end as after
        the single calls in order, and item `k` gets the answer the single call would have got. */
    method BulkMarkShipped(userId: nat, items: seq<ShipItem>)
      returns (siteFound: bool, shipped: nat, failed: int, results: seq<ShipResult>)
      modifies this`orders
      ensures siteFound == SiteOf(old(Tables()), userId).Some?
      ensures !siteFound ==> Tables() == old(Tables()) && results == []
      ensures siteFound ==>
        && Tables() == Run(old(Tables()), ShipOps(userId, items))
        && |results| == |items|
        && (forall k | 0 <= k < |items| ::
              var ops := ShipOps(userId, items);
              && results[k].orderId == items[k].orderId
              && results[k].answer == AnswerOf(Run(old(Tables()), ops[..k]), ops[k]))
      ensures siteFound ==> shipped == CountOk(results) && shipped + failed == |items| && failed >= 0
    {
      shipped, failed, results := 0, 0, [];
      siteFound := userId in shop.sites;
      if !siteFound { return; }
      ghost var db := Tables();
      ghost var ops := ShipOps(userId, items);
      for n := 0 to |items|
        invariant Tables() == Run(db, ops[..n])
        invariant |results| == n
        invariant forall k | 0 <= k < n ::
            && results[k].orderId == items[k].orderId
            && results[k].answer == AnswerOf(Run(db, ops[..k]), ops[k])
      {
        var answer := ShipOne(userId, items[n].orderId, items[n].request, items[n].at);
        results := results + [ShipResult(items[n].orderId, answer)];
        RunOneMore(db, ops, n);
      }
      assert ops[..|items|] == ops;
      shipped := Shipments(results);
      failed := |results| - shipped;
      CountOkBound(results);
    }

    /** `results.filter((r) => r.ok).length`. */
    method Shipments(results: seq<ShipResult>) returns (count: nat)
      ensures count == CountOk(results)
    {
      count := 0;
      for n := 0 to |results|
        invariant count == CountOk(results[..n])
      {
        assert results[..n + 1][..n] == results[..n];
        if results[n].answer.Ok? { count := count + 1; }
      }
      assert results[..|results|] == results;
    }
  }

  lemma {:induction false} CountOkBound(results: seq<ShipResult>)
    ensures CountOk(results) <= |results|
  {
    if results != [] { CountOkBound(results[..|results| - 1]); }
  }

  lemma RunOneMore(db: Db, ops: seq<Op>, n: nat)
    requires n < |ops|
    ensures Run(db, ops[..n + 1]) == After(Run(db, ops[..n]), ops[n])
  {
    assert ops[..n + 1] == ops[..n] + [ops[n]];
    RunAppend(db, ops[..n], [ops[n]]);
    assert Run(Run(db, ops[..n]), [ops[n]]) == After(Run(db, ops[..n]), ops[n]);
  }

  /** A run, cut after its step `j`. */
  lemma RunFrom(db: Db, ops: seq<Op>, j: nat, k: nat)
    requires j < k <= |ops|
    ensures Run(db, ops[..k]) == Run(After(Run(db, ops[..j]), ops[j]), ops[j + 1..k])
  {
    var rest := [ops[j]] + ops[j + 1..k];
    assert ops[..k] == ops[..j] + rest;
    RunAppend(db, ops[..j], rest);
    assert rest[1..] == ops[j + 1..k];
  }

  predicate ShippedFor(orders: seq<Order>, userId: nat, i: nat) {
    i < |orders| && orders[i].userId == userId && orders[i].status == Shipped
  }

  lemma {:induction false} ShipsKeepShipped(db: Db, ops: seq<Op>, userId: nat, i: nat)
    requires forall k | 0 <= k < |ops| :: ops[k].Ship?
    requires ShippedFor(db.orders, userId, i)
    ensures ShippedFor(Run(db, ops).orders, userId, i)
    decreases ops
  {
    if ops != [] { ShipsKeepShipped(After(db, ops[0]), ops[1..], userId, i); }
  }

  /** An order listed twice in one batch is shipped once: its later items fail. */
  lemma BatchShipsEachOrderOnce(db: Db, userId: nat, items: seq<ShipItem>, j: nat, k: nat)
    requires j < k < |items| && items[j].orderId == items[k].orderId
    requires AnswerOf(Run(db, ShipOps(userId, items)[..j]), ShipOps(userId, items)[j]).Ok?
    ensures AnswerOf(Run(db, ShipOps(userId, items)[..k]), ShipOps(userId, items)[k])
         == Err(CannotShip(Shipped))
  {
    var ops := ShipOps(userId, items);
    var atJ := Run(db, ops[..j]);
    var i := items[j].orderId;
    assert ops[j] == Ship(userId, i, items[j].request, items[j].at);
    assert ShippedFor(After(atJ, ops[j]).orders, userId, i);
    ShipsKeepShipped(After(atJ, ops[j]), ops[j + 1..k], userId, i);
    RunFrom(db, ops, j, k);
  }
}
