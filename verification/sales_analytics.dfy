/**
 * The sales report: one pass over the orders that updates running totals and three maps, and the
 * many-pass report it equals.  Amounts are in paise, percentages in tenths.
 */
module SalesAnalytics {
  import opened Wrappers
  import opened SalesKeys
  import opened Tallies
  import CatalogOrders
  import CatalogAnswers

  const PAID_STATUSES := ["confirmed", "ready_to_ship", "shipped", "delivered", "completed"]

  predicate IsPaidStatus(status: string) { status in PAID_STATUSES }

  const TOP := 8

  /** A change of revenue out of nothing is reported as 100 %. */
  const FROM_NOTHING := 1000

  /** `Math.round(n / d)`: the nearest integer, halves going up. */
  function Round(n: int, d: int): (r: int)
    requires d > 0
    ensures 2 * n - d < 2 * r * d <= 2 * n + d
  {
    (2 * n + d) / (2 * d)
  }

  // ----- what each pass counts -----

  /** `order.orderStatus || 'unknown'`. */
  function StatusIn(sale: Sale): string { if sale.status == "" then "unknown" else sale.status }

  function StatusOf(sale: Sale): Option<string> { Some(StatusIn(sale)) }

  function PaidStatusOf(sale: Sale): Option<string> {
    if IsPaidStatus(sale.status) then Some(sale.status) else None
  }

  function PaidDayOf(sale: Sale): Option<int> { if IsPaidStatus(sale.status) then Some(sale.day) else None }

  function PaidProductOf(sale: Sale): Option<Product> {
    if IsPaidStatus(sale.status) then Some(Product(sale.productId, sale.productName)) else None
  }

  function AsIs(s: string): string { s }

  function Average(paid: Tally): int { if paid.orders > 0 then Round(paid.amount, paid.orders) else 0 }

  function Change(revenue: int, before: int): Option<int> {
    if before > 0 then Some(Round((revenue - before) * 1000, before))
    else if revenue > 0 then Some(FROM_NOTHING)
    else None
  }

  function Days(first: int, days: nat): (r: seq<int>)
    ensures |r| == days
  {
    seq(days, i => first + i)
  }

  function SeriesOf(sales: seq<Sale>, first: int, days: nat): (r: seq<Row<string>>)
    ensures |r| == days
  {
    seq(days, i requires 0 <= i < days => Row(DayKey(first + i), Tallied(sales, PaidDayOf, first + i)))
  }

  function Top<K>(rows: seq<Row<K>>): seq<Row<K>> { if |rows| <= TOP then rows else rows[..TOP] }

  /** What the report sums up. */
  datatype Totals = Totals(
    orders: nat, paid: Tally, pending: int, awaiting: int, ready: nat, shipped: nat, delivered: nat)

  datatype Report = Report(
    from: string, to: string, totals: Totals, average: int, previous: Tally, change: Option<int>,
    byStatus: seq<Row<string>>, series: seq<Row<string>>, topProducts: seq<Row<Product>>)

  function TotalsOf(sales: seq<Sale>): Totals {
    Totals(
      |sales|, Overall(sales, PaidStatusOf),
      Tallied(sales, StatusOf, "pending_verification").amount, Tallied(sales, StatusOf, "pending_payment").amount,
      Tallied(sales, StatusOf, "ready_to_ship").orders, Tallied(sales, StatusOf, "shipped").orders,
      Tallied(sales, StatusOf, "delivered").orders + Tallied(sales, StatusOf, "completed").orders)
  }

  /** The figures worked out once every order is counted. */
  function Assemble(first: int, today: int, t: Totals, previous: Tally,
                    statuses: seq<Row<string>>, series: seq<Row<string>>, products: seq<Row<Product>>): Report
  {
    Report(
      DayKey(first), DayKey(today), t, Average(t.paid), previous, Change(t.paid.amount, previous.amount),
      Ranked(statuses), series, Top(Ranked(products)))
  }

  /** The report with a pass of its own for every figure. */
  function ReportOf(days: nat, today: int, current: seq<Sale>, earlier: seq<Sale>): Report {
    var first := today - (days - 1);
    Assemble(
      first, today, TotalsOf(current), Overall(earlier, PaidStatusOf),
      Groups(current, StatusOf), SeriesOf(current, first, days), Groups(current, PaidProductOf))
  }

  // ----- the one pass -----

  /** The series map holds the paid tally of each day in range, and only those days. */
  ghost predicate SeriesHolds(m: map<string, Tally>, sales: seq<Sale>, first: int, end: int) {
    && (forall d: int :: DayKey(d) in m <==> first <= d < end)
    && (forall d: int | DayKey(d) in m :: m[DayKey(d)] == Tallied(sales, PaidDayOf, d))
  }

  lemma SeriesStep(m: map<string, Tally>, sales: seq<Sale>, sale: Sale, first: int, end: int)
    requires SeriesHolds(m, sales, first, end)
    ensures
      var key := DayKey(sale.day);
      SeriesHolds(
        if IsPaidStatus(sale.status) && key in m then m[key := OneMore(m[key], sale.amount)] else m,
        sales + [sale], first, end)
  {
    assert (sales + [sale])[..|sales|] == sales;
    forall d: int | DayKey(d) == DayKey(sale.day) ensures d == sale.day {
      DayKeyIsInjective(d, sale.day);
    }
  }

  lemma StatusStep(sales: seq<Sale>, sale: Sale, status: string)
    ensures Tallied(sales + [sale], StatusOf, status) ==
      if StatusIn(sale) == status then OneMore(Tallied(sales, StatusOf, status), sale.amount)
      else Tallied(sales, StatusOf, status)
  {
    assert (sales + [sale])[..|sales|] == sales;
  }

  lemma PaidStep(sales: seq<Sale>, sale: Sale)
    ensures Overall(sales + [sale], PaidStatusOf) ==
      if IsPaidStatus(sale.status) then OneMore(Overall(sales, PaidStatusOf), sale.amount)
      else Overall(sales, PaidStatusOf)
  {
    assert (sales + [sale])[..|sales|] == sales;
  }

  lemma TotalsStep(sales: seq<Sale>, sale: Sale)
    ensures
      var t, status := TotalsOf(sales), StatusIn(sale);
      TotalsOf(sales + [sale]) == Totals(
        t.orders + 1,
        if status != "pending_verification" && status != "pending_payment" && IsPaidStatus(status)
          then OneMore(t.paid, sale.amount) else t.paid,
        if status == "pending_verification" then t.pending + sale.amount else t.pending,
        if status != "pending_verification" && status == "pending_payment"
          then t.awaiting + sale.amount else t.awaiting,
        if status == "ready_to_ship" then t.ready + 1 else t.ready,
        if status == "shipped" then t.shipped + 1 else t.shipped,
        if status == "delivered" || status == "completed" then t.delivered + 1 else t.delivered)
  {
    PaidStep(sales, sale);
    StatusStep(sales, sale, "pending_verification");
    StatusStep(sales, sale, "pending_payment");
    StatusStep(sales, sale, "ready_to_ship");
    StatusStep(sales, sale, "shipped");
    StatusStep(sales, sale, "delivered");
    StatusStep(sales, sale, "completed");
    assert "delivered" != "completed";
  }

  lemma ProductKeysDiffer()
    ensures Injective(ProductKey)
  {
    forall p, q | ProductKey(p) == ProductKey(q) ensures p == q { ProductKeyIsInjective(p, q); }
  }

  lemma OneLonger(sales: seq<Sale>, i: nat)
    requires i < |sales|
    ensures sales[..i + 1] == sales[..i] + [sales[i]] && sales[..i + 1][..i] == sales[..i]
  {
  }

  /** `unknown` and the two pending statuses are not paid. */
  lemma PaidStatusStands(sale: Sale)
    ensures IsPaidStatus(StatusIn(sale)) <==> IsPaidStatus(sale.status)
    ensures IsPaidStatus(sale.status) ==> StatusIn(sale) !in {"pending_verification", "pending_payment"}
  {
  }

  lemma OneMoreDay(m: map<string, Tally>, first: int, day: int)
    requires SeriesHolds(m, [], first, day) && first <= day
    ensures SeriesHolds(m[DayKey(day) := NOTHING], [], first, day + 1)
  {
    forall d: int | DayKey(d) == DayKey(day) ensures d == day { DayKeyIsInjective(d, day); }
  }

  method EmptySeries(first: int, days: nat) returns (seriesMap: map<string, Tally>)
    ensures SeriesHolds(seriesMap, [], first, first + days)
  {
    seriesMap := map[];
    for i := 0 to days
      invariant SeriesHolds(seriesMap, [], first, first + i)
    {
      OneMoreDay(seriesMap, first, first + i);
      seriesMap := seriesMap[DayKey(first + i) := NOTHING];
    }
  }

  /** Counts a paid order in its day and its product. */
  method FilePaid(ghost before: seq<Sale>, order: Sale, ghost first: int, ghost end: int,
                  seriesMap: map<string, Tally>, products: seq<Entry<Product>>)
    returns (seriesAfter: map<string, Tally>, productsAfter: seq<Entry<Product>>)
    requires IsPaidStatus(order.status) && SeriesHolds(seriesMap, before, first, end)
    requires products == Filed(Groups(before, PaidProductOf), ProductKey)
    ensures SeriesHolds(seriesAfter, before + [order], first, end)
    ensures productsAfter == Filed(Groups(before + [order], PaidProductOf), ProductKey)
  {
    ProductKeysDiffer();
    TableStep(before, order, PaidProductOf, ProductKey);
    SeriesStep(seriesMap, before, order, first, end);
    seriesAfter := seriesMap;
    var key := DayKey(order.day);
    if key in seriesMap { seriesAfter := seriesMap[key := OneMore(seriesMap[key], order.amount)]; }
    var product := Product(order.productId, order.productName);
    productsAfter := Bump(products, ProductKey(product), product, order.amount);
  }

  lemma UnpaidIsNotFiled(m: map<string, Tally>, sales: seq<Sale>, sale: Sale, first: int, end: int)
    requires !IsPaidStatus(sale.status) && SeriesHolds(m, sales, first, end)
    ensures SeriesHolds(m, sales + [sale], first, end)
    ensures Filed(Groups(sales + [sale], PaidProductOf), ProductKey) == Filed(Groups(sales, PaidProductOf), ProductKey)
  {
    SeriesStep(m, sales, sale, first, end);
    ProductKeysDiffer();
    TableStep(sales, sale, PaidProductOf, ProductKey);
  }

  /** Counts an order in the running totals, and says whether it is paid. */
  method CountOrder(ghost before: seq<Sale>, order: Sale, t: Totals) returns (after: Totals, isPaid: bool)
    requires t == TotalsOf(before)
    ensures after == TotalsOf(before + [order]) && isPaid == IsPaidStatus(order.status)
  {
    TotalsStep(before, order);
    PaidStatusStands(order);
    after, isPaid := t.(orders := t.orders + 1), false;
    var status := StatusIn(order);
    if status == "ready_to_ship" { after := after.(ready := t.ready + 1); }
    if status == "shipped" { after := after.(shipped := t.shipped + 1); }
    if status == "delivered" || status == "completed" { after := after.(delivered := t.delivered + 1); }
    if status == "pending_verification" {
      after := after.(pending := t.pending + order.amount);
    } else if status == "pending_payment" {
      after := after.(awaiting := t.awaiting + order.amount);
    } else if IsPaidStatus(status) {
      after, isPaid := after.(paid := OneMore(t.paid, order.amount)), true;
    }
  }

  /** The pass over the orders of the period. */
  method CountOrders(current: seq<Sale>, ghost first: int, ghost end: int, emptySeries: map<string, Tally>)
    returns (t: Totals, byStatus: seq<Entry<string>>, seriesMap: map<string, Tally>, products: seq<Entry<Product>>)
    requires SeriesHolds(emptySeries, [], first, end)
    ensures t == TotalsOf(current)
    ensures byStatus == Filed(Groups(current, StatusOf), AsIs)
    ensures products == Filed(Groups(current, PaidProductOf), ProductKey)
    ensures SeriesHolds(seriesMap, current, first, end)
  {
    byStatus, seriesMap, products, t := [], emptySeries, [], Totals(0, NOTHING, 0, 0, 0, 0, 0);
    for i := 0 to |current|
      invariant t == TotalsOf(current[..i])
      invariant byStatus == Filed(Groups(current[..i], StatusOf), AsIs)
      invariant products == Filed(Groups(current[..i], PaidProductOf), ProductKey)
      invariant SeriesHolds(seriesMap, current[..i], first, end)
    {
      var order := current[i];
      OneLonger(current, i);
      TableStep(current[..i], order, StatusOf, AsIs);
      byStatus := Bump(byStatus, StatusIn(order), StatusIn(order), order.amount);
      var isPaid;
      t, isPaid := CountOrder(current[..i], order, t);
      if isPaid {
        seriesMap, products := FilePaid(current[..i], order, first, end, seriesMap, products);
      } else {
        UnpaidIsNotFiled(seriesMap, current[..i], order, first, end);
      }
    }
    assert current[..|current|] == current;
  }

  method CountEarlier(earlier: seq<Sale>) returns (previous: Tally)
    ensures previous == Overall(earlier, PaidStatusOf)
  {
    previous := NOTHING;
    for i := 0 to |earlier|
      invariant previous == Overall(earlier[..i], PaidStatusOf)
    {
      OneLonger(earlier, i);
      if IsPaidStatus(earlier[i].status) { previous := OneMore(previous, earlier[i].amount); }
    }
    assert earlier[..|earlier|] == earlier;
  }

  method ReadSeries(seriesMap: map<string, Tally>, ghost current: seq<Sale>, first: int, days: nat)
    returns (r: seq<Row<string>>)
    requires SeriesHolds(seriesMap, current, first, first + days)
    ensures r == SeriesOf(current, first, days)
  {
    r := seq(days, i requires 0 <= i < days => Row(DayKey(first + i), seriesMap[DayKey(first + i)]));
  }

  /** The rows and totals of the period, from its first day on. */
  method CountPeriod(current: seq<Sale>, first: int, days: nat)
    returns (t: Totals, statuses: seq<Row<string>>, series: seq<Row<string>>, products: seq<Row<Product>>)
    ensures t == TotalsOf(current) && series == SeriesOf(current, first, days)
    ensures statuses == Groups(current, StatusOf) && products == Groups(current, PaidProductOf)
  {
    var emptySeries := EmptySeries(first, days);
    var byStatus, seriesMap, productMap;
    t, byStatus, seriesMap, productMap := CountOrders(current, first, first + days, emptySeries);
    series := ReadSeries(seriesMap, current, first, days);
    RowsAreFiled(Groups(current, StatusOf), AsIs);
    RowsAreFiled(Groups(current, PaidProductOf), ProductKey);
    statuses, products := Rows(byStatus), Rows(productMap);
  }

  method AggregateCatalogSalesAnalytics(days: nat, today: int, current: seq<Sale>, earlier: seq<Sale>)
    returns (r: Report)
    ensures r == ReportOf(days, today, current, earlier)
  {
    var first := today - (days - 1);
    var t, statuses, series, products := CountPeriod(current, first, days);
    var previous := CountEarlier(earlier);
    r := Assemble(first, today, t, previous, statuses, series, products);
  }

  // ----- what the figures mean -----

  function AmountOf(sales: seq<Sale>): int {
    if sales == [] then 0 else AmountOf(sales[..|sales| - 1]) + sales[|sales| - 1].amount
  }

  lemma {:induction false} OverallIsAll(sales: seq<Sale>)
    ensures Overall(sales, StatusOf) == Tally(|sales|, AmountOf(sales))
    decreases sales
  {
    if sales != [] { OverallIsAll(sales[..|sales| - 1]); }
  }

  lemma {:induction false} SameWhole<K, L>(sales: seq<Sale>, f: Sale -> Option<K>, g: Sale -> Option<L>)
    requires forall sale | sale in sales :: f(sale).Some? <==> g(sale).Some?
    ensures Overall(sales, f) == Overall(sales, g)
    decreases sales
  {
    if sales != [] { SameWhole(sales[..|sales| - 1], f, g); }
  }

  lemma GroupsSum<K(!new)>(sales: seq<Sale>, keyOf: Sale -> Option<K>)
    ensures Sum(RowTallies(Ranked(Groups(sales, keyOf)))) == Overall(sales, keyOf)
  {
    KeysSeenAre(sales, keyOf);
    GroupsAddUp(sales, keyOf, KeysSeen(sales, keyOf));
    assert RowTallies(Groups(sales, keyOf)) == TalliesOf(sales, keyOf, KeysSeen(sales, keyOf));
    RankingKeepsSum(Groups(sales, keyOf));
  }

  /** The status rows share out all the orders and all the money. */
  lemma StatusRowsAddUp(days: nat, today: int, current: seq<Sale>, earlier: seq<Sale>)
    ensures Sum(RowTallies(ReportOf(days, today, current, earlier).byStatus)) == Tally(|current|, AmountOf(current))
  {
    GroupsSum(current, StatusOf);
    OverallIsAll(current);
  }

  lemma {:induction false} PaidRowIsStatusRow(sales: seq<Sale>, status: string)
    requires IsPaidStatus(status)
    ensures Tallied(sales, PaidStatusOf, status) == Tallied(sales, StatusOf, status)
    decreases sales
  {
    if sales != [] {
      PaidRowIsStatusRow(sales[..|sales| - 1], status);
      PaidStatusStands(sales[|sales| - 1]);
    }
  }

  /** Paid orders and revenue are the tallies of the five paid statuses together. */
  lemma PaidIsTheFiveStatuses(sales: seq<Sale>)
    ensures Overall(sales, PaidStatusOf) == Sum(TalliesOf(sales, StatusOf, PAID_STATUSES))
  {
    var ts := TalliesOf(sales, StatusOf, PAID_STATUSES);
    forall i | 0 <= i < 5 ensures ts[i] == Tallied(sales, PaidStatusOf, PAID_STATUSES[i]) {
      PaidRowIsStatusRow(sales, PAID_STATUSES[i]);
    }
    assert ts == TalliesOf(sales, PaidStatusOf, PAID_STATUSES);
    GroupsAddUp(sales, PaidStatusOf, PAID_STATUSES);
  }

  /** Every paid order is waiting for an address, ready, shipped or delivered. */
  lemma PaidOrdersByStage(sales: seq<Sale>)
    ensures
      var t := TotalsOf(sales);
      t.paid.orders == Tallied(sales, StatusOf, "confirmed").orders + t.ready + t.shipped + t.delivered
  {
    PaidIsTheFiveStatuses(sales);
    var ts := TalliesOf(sales, StatusOf, PAID_STATUSES);
    SumOfFive(ts);
  }

  lemma SumOfFive(ts: seq<Tally>)
    requires |ts| == 5
    ensures Sum(ts).orders == ts[0].orders + ts[1].orders + ts[2].orders + ts[3].orders + ts[4].orders
  {
    assert ts[..4][..3] == ts[..3] && ts[..3][..2] == ts[..2] && ts[..2][..1] == ts[..1];
    assert Sum(ts[..1]) == ts[0];
    assert Sum(ts[..2]) == Plus(Sum(ts[..1]), ts[1]);
    assert Sum(ts[..3]) == Plus(Sum(ts[..2]), ts[2]);
    assert Sum(ts[..4]) == Plus(Sum(ts[..3]), ts[3]);
  }

  ghost predicate PaidInRange(sales: seq<Sale>, first: int, end: int) {
    forall sale | sale in sales && IsPaidStatus(sale.status) :: first <= sale.day < end
  }

  /** The day series shares out the paid orders exactly when each was placed on one of its days, and then
      it shares out the paid revenue too. */
  lemma SeriesAddsUpIff(days: nat, today: int, current: seq<Sale>, earlier: seq<Sale>)
    ensures
      var r, first := ReportOf(days, today, current, earlier), today - (days - 1);
      (Sum(RowTallies(r.series)).orders == r.totals.paid.orders <==> PaidInRange(current, first, today + 1))
      && (PaidInRange(current, first, today + 1) ==> Sum(RowTallies(r.series)) == r.totals.paid)
  {
    SeriesSum(current, today - (days - 1), days);
  }

  lemma SeriesSum(sales: seq<Sale>, first: int, days: nat)
    ensures
      var sum, paid := Sum(RowTallies(SeriesOf(sales, first, days))), Overall(sales, PaidStatusOf);
      (sum.orders == paid.orders <==> PaidInRange(sales, first, first + days))
      && (PaidInRange(sales, first, first + days) ==> sum == paid)
  {
    SeriesIsGroups(sales, first, days);
    GroupsAddUp(sales, PaidDayOf, Days(first, days));
    SameWhole(sales, PaidDayOf, PaidStatusOf);
    CoveredIffInRange(sales, first, days);
  }

  lemma SeriesIsGroups(sales: seq<Sale>, first: int, days: nat)
    ensures RowTallies(SeriesOf(sales, first, days)) == TalliesOf(sales, PaidDayOf, Days(first, days))
  {
  }

  lemma CoveredIffInRange(sales: seq<Sale>, first: int, days: nat)
    ensures Covered(sales, PaidDayOf, Days(first, days)) <==> PaidInRange(sales, first, first + days)
  {
    var keys := Days(first, days);
    forall d: int ensures d in keys <==> first <= d < first + days {
      if first <= d < first + days { assert keys[d - first] == d; }
    }
  }

  /** No two days of the series have the same date text. */
  lemma SeriesDatesDiffer(sales: seq<Sale>, first: int, days: nat, i: nat, j: nat)
    requires i < j < days
    ensures SeriesOf(sales, first, days)[i].key != SeriesOf(sales, first, days)[j].key
  {
    if DayKey(first + i) == DayKey(first + j) { DayKeyIsInjective(first + i, first + j); }
  }

  /** All products together earn the paid revenue. */
  lemma ProductsAddUp(sales: seq<Sale>)
    ensures Sum(RowTallies(Ranked(Groups(sales, PaidProductOf)))) == TotalsOf(sales).paid
  {
    GroupsSum(sales, PaidProductOf);
    SameWhole(sales, PaidProductOf, PaidStatusOf);
  }

  /** The row a product would have, if it was sold at all. */
  predicate IsProductRow(sales: seq<Sale>, row: Row<Product>) {
    row.tally == Tallied(sales, PaidProductOf, row.key) && row.tally.orders > 0
  }

  /** The top products are rows of sold products, none twice, at most eight and best first; a sold product is
      left out only when eight are kept, none of them beaten by it. */
  lemma TopProductsAreTop(days: nat, today: int, current: seq<Sale>, earlier: seq<Sale>, row: Row<Product>)
    ensures
      var top := ReportOf(days, today, current, earlier).topProducts;
      && |top| <= TOP && InOrder(top) && multiset(top)[row] <= 1
      && (row in top ==> IsProductRow(current, row))
      && (IsProductRow(current, row) && row !in top ==>
        |top| == TOP && forall kept | kept in top :: NoWorse(kept.tally, row.tally))
  {
    var groups := Groups(current, PaidProductOf);
    var all, top := Ranked(groups), Top(Ranked(groups));
    var rest := all[|top|..];
    assert top + rest == all;
    TopAreTop(groups, top, rest);
    RankedIsStableSort(groups);
    GroupsAreExact(current, PaidProductOf, row);
    assert row in groups <==> row in multiset(groups);
    assert row in top ==> row in multiset(top) + multiset(rest);
    assert row in multiset(top) + multiset(rest) ==> row in top || row in rest;
  }

  // ----- the report and the orders -----

  /** How the table spells an order's status. */
  function StatusText(s: CatalogOrders.OrderStatus): string {
    match s
    case PendingPayment => "pending_payment"
    case PendingVerification => "pending_verification"
    case Confirmed => "confirmed"
    case ReadyToShip => "ready_to_ship"
    case Shipped => "shipped"
    case Delivered => "delivered"
    case Rejected => "rejected"
    case Cancelled => "cancelled"
    case Completed => "completed"
  }

  predicate IsSaleOf(sale: Sale, order: CatalogOrders.Order) {
    sale.status == StatusText(order.status) && sale.amount == order.amountPaise
  }

  /** The number of orders whose payment the owner has verified. */
  function VerifiedOrders(orders: seq<CatalogOrders.Order>): nat {
    if orders == [] then 0
    else VerifiedOrders(orders[..|orders| - 1]) + if orders[|orders| - 1].payment.PaymentVerified? then 1 else 0
  }

  /** Number and worth of those orders. */
  function Verified(orders: seq<CatalogOrders.Order>): Tally {
    Tally(VerifiedOrders(orders), CatalogAnswers.VerifiedIncome(orders))
  }

  lemma {:induction false} PaidIsVerified(sales: seq<Sale>, orders: seq<CatalogOrders.Order>)
    requires |sales| == |orders|
    requires forall i | 0 <= i < |orders| :: IsSaleOf(sales[i], orders[i]) && CatalogOrders.OrderInv(orders[i])
    ensures Overall(sales, PaidStatusOf) == Verified(orders)
    decreases sales
  {
    if sales != [] {
      var n := |sales| - 1;
      PaidIsVerified(sales[..n], orders[..n]);
      PaidTextIff(orders[n].status);
      assert IsSaleOf(sales[n], orders[n]);
    }
  }

  lemma PaidTextIff(s: CatalogOrders.OrderStatus)
    ensures IsPaidStatus(StatusText(s)) <==> CatalogOrders.IsPaid(s)
  {
  }

  /** Whatever calls a shop has served, the income reported over its orders is the money of the orders with
      a verified payment. */
  lemma ReportedIncomeIsVerified(
    db: CatalogOrders.Db, ops: seq<CatalogOrders.Op>, days: nat, today: int, sales: seq<Sale>, earlier: seq<Sale>)
    requires CatalogOrders.DbInv(db)
    requires
      var orders := CatalogOrders.Run(db, ops).orders;
      |sales| == |orders| && forall i | 0 <= i < |orders| :: IsSaleOf(sales[i], orders[i])
    ensures ReportOf(days, today, sales, earlier).totals.paid == Verified(CatalogOrders.Run(db, ops).orders)
  {
    CatalogOrders.RunKeepsInv(db, ops);
    PaidIsVerified(sales, CatalogOrders.Run(db, ops).orders);
  }

  /** In a shop that starts without orders and reprices no ordered product it is the price of each product times the
      units taken from its stock. */
  lemma ReportedIncomeIsPriceTimesUnits(
    db: CatalogOrders.Db, ops: seq<CatalogOrders.Op>, days: nat, today: int, sales: seq<Sale>, earlier: seq<Sale>)
    requires CatalogOrders.DbInv(db) && db.orders == [] && CatalogAnswers.NoRepricing(db, ops)
    requires
      var orders := CatalogOrders.Run(db, ops).orders;
      |sales| == |orders| && forall i | 0 <= i < |orders| :: IsSaleOf(sales[i], orders[i])
    ensures
      var now := CatalogOrders.Run(db, ops);
      ReportOf(days, today, sales, earlier).totals.paid.amount
        == CatalogAnswers.SoldWorth(now.products, now.orders, |now.products|)
  {
    ReportedIncomeIsVerified(db, ops, days, today, sales, earlier);
    CatalogAnswers.RunIncome(db, ops);
  }

  /** Number and worth of the orders in a status. */
  function InStatus(orders: seq<CatalogOrders.Order>, s: CatalogOrders.OrderStatus): Tally {
    if orders == [] then NOTHING
    else
      var n := |orders| - 1;
      var before := InStatus(orders[..n], s);
      if orders[n].status == s then OneMore(before, orders[n].amountPaise) else before
  }

  lemma StatusTextsDiffer(s: CatalogOrders.OrderStatus, t: CatalogOrders.OrderStatus)
    ensures StatusText(s) != "" && (StatusText(s) == StatusText(t) ==> s == t)
  {
  }

  lemma {:induction false} TalliedIsInStatus(
    sales: seq<Sale>, orders: seq<CatalogOrders.Order>, s: CatalogOrders.OrderStatus)
    requires |sales| == |orders| && forall i | 0 <= i < |orders| :: IsSaleOf(sales[i], orders[i])
    ensures Tallied(sales, StatusOf, StatusText(s)) == InStatus(orders, s)
    decreases sales
  {
    if sales != [] {
      var n := |sales| - 1;
      TalliedIsInStatus(sales[..n], orders[..n], s);
      assert IsSaleOf(sales[n], orders[n]);
      StatusTextsDiffer(orders[n].status, s);
    }
  }

  /** The figures of the report, on the orders themselves. */
  lemma TotalsAreCounts(sales: seq<Sale>, orders: seq<CatalogOrders.Order>)
    requires |sales| == |orders| && forall i | 0 <= i < |orders| :: IsSaleOf(sales[i], orders[i])
    ensures
      var t := TotalsOf(sales);
      && t.orders == |orders|
      && t.pending == InStatus(orders, CatalogOrders.PendingVerification).amount
      && t.awaiting == InStatus(orders, CatalogOrders.PendingPayment).amount
      && t.ready == InStatus(orders, CatalogOrders.ReadyToShip).orders
      && t.shipped == InStatus(orders, CatalogOrders.Shipped).orders
      && t.delivered == InStatus(orders, CatalogOrders.Delivered).orders
                        + InStatus(orders, CatalogOrders.Completed).orders
  {
    TalliedIsInStatus(sales, orders, CatalogOrders.PendingVerification);
    TalliedIsInStatus(sales, orders, CatalogOrders.PendingPayment);
    TalliedIsInStatus(sales, orders, CatalogOrders.ReadyToShip);
    TalliedIsInStatus(sales, orders, CatalogOrders.Shipped);
    TalliedIsInStatus(sales, orders, CatalogOrders.Delivered);
    TalliedIsInStatus(sales, orders, CatalogOrders.Completed);
  }

  // ----- the derived figures -----

  /** The change is reported exactly when either period earned something.  It is positive only for more income and
      negative only for less, and from a period with income it is the change in tenths of a percent, to the nearest. */
  lemma ChangeMeans(revenue: int, before: int)
    ensures
      var change := Change(revenue, before);
      && (change.Some? <==> before > 0 || revenue > 0)
      && (change.Some? ==>
            (change.value > 0 ==> revenue > before || before <= 0)
            && (change.value < 0 ==> revenue < before)
            && (before <= 0 ==> change.value == FROM_NOTHING))
      && (before > 0 ==> -before <= 2 * (1000 * (revenue - before) - change.value * before) < before)
  {
    if before > 0 { NearestIs((revenue - before) * 1000, before); }
  }

  lemma NearestIs(n: int, d: int)
    requires d > 0
    ensures -d <= 2 * (n - Round(n, d) * d) < d
    ensures n >= 0 ==> Round(n, d) >= 0
    ensures n <= 0 ==> Round(n, d) <= 0
  {
  }

  /** Every paid amount lies between `low` and `high`. */
  ghost predicate PaidBetween(sales: seq<Sale>, low: int, high: int) {
    forall sale | sale in sales && IsPaidStatus(sale.status) :: low <= sale.amount <= high
  }

  lemma {:induction false} PaidSumBetween(sales: seq<Sale>, low: int, high: int)
    requires PaidBetween(sales, low, high)
    ensures
      var paid := Overall(sales, PaidStatusOf);
      low * paid.orders <= paid.amount <= high * paid.orders
    decreases sales
  {
    if sales != [] {
      var n := |sales| - 1;
      PaidSumBetween(sales[..n], low, high);
      if IsPaidStatus(sales[n].status) {
        assert low <= sales[n].amount <= high;
        var before := Overall(sales[..n], PaidStatusOf);
        assert low * (before.orders + 1) == low * before.orders + low;
        assert high * (before.orders + 1) == high * before.orders + high;
      }
    }
  }

  /** The average is the revenue shared out over the paid orders, to the nearest paisa, and it lies between the smallest
      and the largest of them. */
  lemma AverageMeans(days: nat, today: int, current: seq<Sale>, earlier: seq<Sale>, low: int, high: int)
    requires PaidBetween(current, low, high)
    ensures
      var r := ReportOf(days, today, current, earlier);
      var paid := r.totals.paid;
      && (paid.orders == 0 ==> r.average == 0)
      && (paid.orders > 0 ==> 0 - paid.orders <= 2 * (paid.amount - r.average * paid.orders) < paid.orders)
      && (paid.orders > 0 ==> low <= r.average <= high)
  {
    var paid := Overall(current, PaidStatusOf);
    if paid.orders > 0 {
      NearestIs(paid.amount, paid.orders);
      PaidSumBetween(current, low, high);
      RoundBetween(paid.amount, paid.orders, low, high);
    }
  }

  lemma RoundBetween(n: int, d: int, low: int, high: int)
    requires d > 0 && low * d <= n <= high * d
    ensures low <= Round(n, d) <= high
  {
    var r := Round(n, d);
    TimesGrows(r + 1, low, d);
    TimesGrows(high + 1, r, d);
  }

  lemma TimesGrows(a: int, b: int, d: nat)
    ensures a <= b ==> a * d <= b * d
  {
  }

  /** The period runs from the first date of its day series to the last, which is today. */
  lemma ReportDates(days: nat, today: int, current: seq<Sale>, earlier: seq<Sale>)
    requires days > 0
    ensures
      var r := ReportOf(days, today, current, earlier);
      |r.series| == days && r.from == r.series[0].key && r.to == r.series[days - 1].key && r.to == DayKey(today)
  {
  }
}
