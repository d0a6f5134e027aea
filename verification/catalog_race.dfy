/**
 * Confirmations that race for the same stock: with nobody else deciding or restocking, exactly as many orders are paid
 * for as there are units.
 */
module CatalogRace {
  import opened Wrappers
  import opened CatalogOrders
  import opened CatalogAnswers
  import opened CatalogTransactions

  /** The order a transaction decides. */
  function OrderOf(db: Db, tx: Tx): Order
    requires tx.op.orderId < |db.orders|
  {
    db.orders[tx.op.orderId]
  }

  /** A confirmation by the owner of an order that waits for verification, yet to begin. */
  predicate Entrant(db: Db, tx: Tx) {
    && tx.op.Confirm? && tx.pc == Start && tx.row.None? && tx.stock.None?
    && Mine(db, tx.op.userId, tx.op.orderId) && OrderOf(db, tx).status == PendingVerification
  }

  /** No two transactions decide the same order. */
  ghost predicate OwnOrders(txs: seq<Tx>) {
    forall t, u | 0 <= t < u < |txs| :: txs[t].op.orderId != txs[u].op.orderId
  }

  /** The shop is a good one, every transaction a confirmation of an order of its own. */
  ghost predicate StartingLine(s: Sys) {
    && DbInv(s.db) && AllOnSite(s.db) && OwnOrders(s.txs)
    && forall t | 0 <= t < |s.txs| :: Entrant(s.db, s.txs[t])
  }

  /** An event that is no crash and leaves stock to the transactions. */
  predicate Fair(e: Event) { !e.Crash? && (e.Call? ==> LeavesStock(e.op)) }

  /** A product may change its price or leave the shop meanwhile. */
  predicate LeavesStock(op: Op) { op.Edit? ==> op.edit.stock.None? }

  /** Where a racing transaction stands: it is still trying, it has lost because its product is sold out, or it has won
      and its order is paid for. */
  predicate Racing(db: Db, tx: Tx) {
    && tx.op.Confirm? && Mine(db, tx.op.userId, tx.op.orderId)
    && var o := OrderOf(db, tx);
       match tx.pc
       case Done(Ok(won)) => IsPaid(o.status) && won.productId == o.productId
       case Done(Err(error)) => error == InsufficientStock && Lost(db, o)
       case PutBack | Abort(_) => Lost(db, o)
       case Explain => false
       case _ => o.status == PendingVerification
  }

  predicate Lost(db: Db, o: Order) { o.status == PendingVerification && SoldOut(db, o) }

  predicate SoldOut(db: Db, o: Order) {
    o.productId.Some? && o.productId.value < |db.products| && db.products[o.productId.value].stock == 0
  }

  /** The transactions that sold a unit of product `p`. */
  function Wins(txs: seq<Tx>, p: nat): nat {
    if txs == [] then 0 else Wins(txs[..|txs| - 1], p) + if Won(txs[|txs| - 1], p) then 1 else 0
  }

  predicate Won(tx: Tx, p: nat) {
    tx.pc.Done? && tx.pc.answer.Ok? && tx.pc.answer.value.productId == Some(p)
  }

  /** The transactions whose order is for product `p`. */
  function Entries(db: Db, txs: seq<Tx>, p: nat): nat {
    if txs == [] then 0 else Entries(db, txs[..|txs| - 1], p) + if Wants(db, txs[|txs| - 1], p) then 1 else 0
  }

  predicate Wants(db: Db, tx: Tx, p: nat) {
    tx.op.orderId < |db.orders| && OrderOf(db, tx).productId == Some(p)
  }

  ghost predicate RaceInv(s: Sys, p: nat, units: int) {
    && SysInv(s) && DbInv(s.db) && AllOnSite(s.db) && OwnOrders(s.txs) && p < |s.db.products|
    && (forall t | 0 <= t < |s.txs| :: Racing(s.db, s.txs[t]))
    && s.db.products[p].stock + Wins(s.txs, p) == units
  }

  lemma {:induction false} WinsUpdate(txs: seq<Tx>, t: nat, tx: Tx, p: nat)
    requires t < |txs|
    ensures Wins(txs[t := tx], p) == Wins(txs, p) - (if Won(txs[t], p) then 1 else 0) + if Won(tx, p) then 1 else 0
  {
    var n := |txs| - 1;
    if t == n {
      assert txs[t := tx][..n] == txs[..n];
    } else {
      assert txs[t := tx][..n] == txs[..n][t := tx];
      WinsUpdate(txs[..n], t, tx, p);
    }
  }

  // ----- one event -----

  /** A statement other than a commit keeps its transaction in the race, and wins nothing. */
  lemma AdvanceKeepsRacing(s: Sys, tx: Tx)
    requires DbInv(s.db) && AllOnSite(s.db) && TxInv(s.db, tx) && Racing(s.db, tx)
    requires !tx.pc.Commit? && Advance(s, tx).Some?
    ensures Racing(s.db, Advance(s, tx).value) && Advance(s, tx).value.op == tx.op
    ensures forall p :: !Won(Advance(s, tx).value, p)
  {
    assert OrderInv(OrderOf(s.db, tx)) && OnSite(s.db.products, OrderOf(s.db, tx));
  }

  /** A ready confirmation pays its order with a unit that is there. */
  lemma CommitWins(db: Db, tx: Tx)
    requires DbInv(db) && Ready(db, tx) && Racing(db, tx) && tx.pc.Commit? && tx.row == Some(tx.pc.read)
    ensures
      var i, p, next := tx.op.orderId, OrderOf(db, tx).productId, Install(db, tx);
      && p.Some? && p.value < |db.products| && p.value < |next.products|
      && OnlyOrder(db, next, i) && OnlyStock(db, next, p.value)
      && next.products[p.value].stock == db.products[p.value].stock - 1 >= 0
      && Racing(next, Ended(tx, Ok(tx.pc.read))) && tx.pc.read.productId == p
  {
    ReadyCommits(db, tx);
    var i := tx.op.orderId;
    ConfirmOkIff(db, tx.op.userId, i, tx.op.at);
    ConfirmTakesOne(db, tx.op.userId, i, tx.op.at);
  }

  /** It does not put anybody else out of the race. */
  lemma OthersRaceOn(db: Db, next: Db, other: Tx, i: nat, p: nat)
    requires Racing(db, other) && other.op.orderId != i
    requires OnlyOrder(db, next, i) && OnlyStock(db, next, p)
    requires p < |db.products| && next.products[p].stock == db.products[p].stock - 1 >= 0
    ensures Racing(next, other)
  {
    assert OrderOf(next, other) == OrderOf(db, other);
  }

  lemma CommitKeepsRace(s: Sys, t: nat, p: nat, units: int)
    requires RaceInv(s, p, units) && t < |s.txs| && s.txs[t].pc.Commit?
    ensures Next(s, Step(t)).Some? && RaceInv(Next(s, Step(t)).value, p, units)
  {
    var tx := s.txs[t];
    assert TxInv(s.db, tx) && Racing(s.db, tx);
    NextKeepsInv(s, Step(t));
    ReadyCommits(s.db, tx);
    AfterKeepsInv(s.db, tx.op);
    AfterKeepsOnSite(s.db, tx.op);
    CommitWins(s.db, tx);
    var next := Next(s, Step(t)).value;
    CommitLeavesRacing(s, t, next.db, OrderOf(s.db, tx).productId.value);
    WinsUpdate(s.txs, t, Ended(tx, Ok(tx.pc.read)), p);
  }

  lemma CommitLeavesRacing(s: Sys, t: nat, next: Db, q: nat)
    requires OwnOrders(s.txs) && t < |s.txs| && forall u | 0 <= u < |s.txs| :: Racing(s.db, s.txs[u])
    requires OnlyOrder(s.db, next, s.txs[t].op.orderId) && OnlyStock(s.db, next, q)
    requires q < |s.db.products| && next.products[q].stock == s.db.products[q].stock - 1 >= 0
    ensures forall u | 0 <= u < |s.txs| && u != t :: Racing(next, s.txs[u])
  {
    forall u | 0 <= u < |s.txs| && u != t ensures Racing(next, s.txs[u]) {
      assert s.txs[if t < u then t else u].op.orderId != s.txs[if t < u then u else t].op.orderId;
      OthersRaceOn(s.db, next, s.txs[u], s.txs[t].op.orderId, q);
    }
  }

  lemma StepKeepsRace(s: Sys, t: nat, p: nat, units: int)
    requires RaceInv(s, p, units) && t < |s.txs| && !s.txs[t].pc.Commit? && Next(s, Step(t)).Some?
    ensures RaceInv(Next(s, Step(t)).value, p, units)
  {
    var tx := s.txs[t];
    assert TxInv(s.db, tx) && Racing(s.db, tx);
    NextKeepsInv(s, Step(t));
    AdvanceKeepsRacing(s, tx);
    WinsUpdate(s.txs, t, Advance(s, tx).value, p);
    assert !tx.pc.Done?;
  }

  /** The other calls decide no order and sell nothing. */
  lemma CallKeepsRacing(db: Db, op: Op, tx: Tx)
    requires DbInv(db) && !op.Confirm? && !op.Reject? && LeavesStock(op) && Racing(db, tx)
    ensures Racing(After(db, op), tx)
  {
    var o := OrderOf(db, tx);
    assert OrderInv(o);
    AfterMovesForward(db, op, tx.op.orderId);
    CallsSellNothing(db, op);
  }

  lemma CallKeepsRace(s: Sys, op: Op, p: nat, units: int)
    requires RaceInv(s, p, units) && Next(s, Call(op)).Some? && LeavesStock(op)
    ensures RaceInv(Next(s, Call(op)).value, p, units)
  {
    NextKeepsInv(s, Call(op));
    AfterKeepsInv(s.db, op);
    AfterKeepsOnSite(s.db, op);
    forall t | 0 <= t < |s.txs| ensures Racing(After(s.db, op), s.txs[t]) { CallKeepsRacing(s.db, op, s.txs[t]); }
    CallsSellNothing(s.db, op);
  }

  lemma CallsSellNothing(db: Db, op: Op)
    requires !op.Confirm? && LeavesStock(op)
    ensures |After(db, op).products| == |db.products|
    ensures forall p | 0 <= p < |db.products| :: After(db, op).products[p].stock == db.products[p].stock
  {
  }

  // ----- the race -----

  lemma {:induction false} NoWinsYet(db: Db, txs: seq<Tx>, p: nat)
    requires forall t | 0 <= t < |txs| :: Entrant(db, txs[t])
    ensures Wins(txs, p) == 0
  {
    if txs != [] { NoWinsYet(db, txs[..|txs| - 1], p); }
  }

  lemma StartIsRace(s: Sys, p: nat)
    requires StartingLine(s) && p < |s.db.products|
    ensures RaceInv(s, p, s.db.products[p].stock)
  {
    forall t | 0 <= t < |s.txs| ensures s.txs[t] == Tx(s.txs[t].op, Start, None, None) {
      assert Entrant(s.db, s.txs[t]);
    }
    FreshSystemIsGood(s);
    forall t | 0 <= t < |s.txs| ensures Racing(s.db, s.txs[t]) { assert Entrant(s.db, s.txs[t]); }
    NoWinsYet(s.db, s.txs, p);
  }

  ghost predicate FairRun(events: seq<Event>) { forall k | 0 <= k < |events| :: Fair(events[k]) }

  /** The same transactions, wanting the same products. */
  ghost predicate SameField(a: Sys, b: Sys) {
    |a.txs| == |b.txs| && forall t | 0 <= t < |a.txs| :: SameEntrant(a.db, b.db, a.txs[t], b.txs[t])
  }

  lemma NextKeepsRace(s: Sys, e: Event, p: nat, units: int)
    requires RaceInv(s, p, units) && Next(s, e).Some? && Fair(e)
    ensures RaceInv(Next(s, e).value, p, units)
  {
    match e
    case Step(t) =>
      if s.txs[t].pc.Commit? { CommitKeepsRace(s, t, p, units); } else { StepKeepsRace(s, t, p, units); }
    case Call(op) => CallKeepsRace(s, op, p, units);
  }

  predicate SameEntrant(a: Db, b: Db, x: Tx, y: Tx) {
    && x.op == y.op && x.op.orderId < |a.orders| && x.op.orderId < |b.orders|
    && OrderOf(a, x).productId == OrderOf(b, y).productId
  }

  lemma NextKeepsEntrant(s: Sys, e: Event, u: nat)
    requires SysInv(s) && DbInv(s.db) && Next(s, e).Some? && u < |s.txs| && Racing(s.db, s.txs[u])
    ensures u < |Next(s, e).value.txs| && SameEntrant(s.db, Next(s, e).value.db, s.txs[u], Next(s, e).value.txs[u])
  {
    NextKeepsOps(s, e, u);
    NextKeepsSale(s, e, s.txs[u].op.orderId);
  }

  lemma NextKeepsField(s: Sys, e: Event, p: nat, units: int)
    requires RaceInv(s, p, units) && Next(s, e).Some?
    ensures SameField(s, Next(s, e).value)
  {
    NextKeepsTable(s, e);
    var next := Next(s, e).value;
    forall u | 0 <= u < |s.txs| ensures u < |next.txs| && SameEntrant(s.db, next.db, s.txs[u], next.txs[u]) {
      NextKeepsEntrant(s, e, u);
    }
  }

  lemma NextKeepsTable(s: Sys, e: Event)
    requires Next(s, e).Some?
    ensures |s.txs| == |Next(s, e).value.txs|
  {
  }

  lemma NextKeepsSale(s: Sys, e: Event, i: nat)
    requires SysInv(s) && DbInv(s.db) && Next(s, e).Some? && i < |s.db.orders|
    ensures i < |Next(s, e).value.db.orders|
    ensures SameSale(s.db.orders[i], Next(s, e).value.db.orders[i])
  {
    match e
    case Step(t) =>
      if s.txs[t].pc.Commit? {
        assert TxInv(s.db, s.txs[t]);
        ReadyCommits(s.db, s.txs[t]);
        AfterMovesForward(s.db, s.txs[t].op, i);
      }
    case Crash(_) =>
    case Call(op) => AfterMovesForward(s.db, op, i);
  }

  lemma {:induction false} RunKeepsRace(s: Sys, events: seq<Event>, p: nat)
    requires StartingLine(s) && p < |s.db.products| && Exec(s, events).Some? && FairRun(events)
    ensures RaceInv(Exec(s, events).value, p, s.db.products[p].stock) && SameField(s, Exec(s, events).value)
  {
    StartIsRace(s, p);
    if events != [] {
      var init := events[..|events| - 1];
      RunKeepsRace(s, init, p);
      NextKeepsRace(Exec(s, init).value, events[|events| - 1], p, s.db.products[p].stock);
      NextKeepsField(Exec(s, init).value, events[|events| - 1], p, s.db.products[p].stock);
      FieldsChain(s, Exec(s, init).value, Exec(s, events).value);
    } else {
      forall t | 0 <= t < |s.txs| ensures s.txs[t].op.orderId < |s.db.orders| { assert Entrant(s.db, s.txs[t]); }
    }
  }

  lemma FieldsChain(a: Sys, b: Sys, c: Sys)
    requires SameField(a, b) && SameField(b, c)
    ensures SameField(a, c)
  {
  }

  /** At the end every entrant has won, or its product is sold out. */
  lemma {:induction false} WinsAtTheEnd(a: Sys, b: Sys, n: nat, p: nat)
    requires SameField(a, b) && n <= |b.txs| && p < |b.db.products|
    requires forall t | 0 <= t < |b.txs| :: Racing(b.db, b.txs[t]) && b.txs[t].pc.Done?
    ensures Wins(b.txs[..n], p) <= Entries(a.db, a.txs[..n], p)
    ensures b.db.products[p].stock > 0 ==> Wins(b.txs[..n], p) == Entries(a.db, a.txs[..n], p)
    ensures Wins(b.txs[..n], p) < Entries(a.db, a.txs[..n], p) ==> b.db.products[p].stock == 0
  {
    if n > 0 {
      WinsAtTheEnd(a, b, n - 1, p);
      assert a.txs[..n][..n - 1] == a.txs[..n - 1] && b.txs[..n][..n - 1] == b.txs[..n - 1];
      WinsOrSoldOut(a.db, b.db, a.txs[n - 1], b.txs[n - 1], p);
    }
  }

  lemma WinsOrSoldOut(a: Db, b: Db, x: Tx, y: Tx, p: nat)
    requires SameEntrant(a, b, x, y) && Racing(b, y) && y.pc.Done? && p < |b.products|
    ensures Won(y, p) ==> Wants(a, x, p)
    ensures Wants(a, x, p) && !Won(y, p) ==> b.products[p].stock == 0
  {
  }

  function Min(a: int, b: int): int { if a <= b then a else b }

  /** However the transactions interleave with each other and with the calls that neither decide nor restock: when all
      have ended, of the confirmations for a product as many succeeded as there were units, or all of them if there were
      enough; an order is paid for exactly when its confirmation succeeded, and the others were told that stock is
      short.  So the last unit is sold to somebody. */
  lemma EveryUnitIsSold(s: Sys, events: seq<Event>, p: nat)
    requires StartingLine(s) && p < |s.db.products| && Exec(s, events).Some? && FairRun(events)
    requires forall t | 0 <= t < |Exec(s, events).value.txs| :: Exec(s, events).value.txs[t].pc.Done?
    ensures
      var now, units := Exec(s, events).value, s.db.products[p].stock;
      && |now.txs| == |s.txs| && p < |now.db.products|
      && Wins(now.txs, p) == Min(Entries(s.db, s.txs, p), units)
      && now.db.products[p].stock == units - Wins(now.txs, p)
      && forall t | 0 <= t < |s.txs| ::
           var i, answer := s.txs[t].op.orderId, now.txs[t].pc.answer;
           && i < |now.db.orders|
           && (IsPaid(now.db.orders[i].status) <==> answer.Ok?)
           && (answer.Err? ==> answer.error == InsufficientStock && now.db.orders[i].status == PendingVerification)
  {
    RunKeepsRace(s, events, p);
    var now := Exec(s, events).value;
    WinsAtTheEnd(s, now, |now.txs|, p);
    assert now.txs[..|now.txs|] == now.txs && s.txs[..|s.txs|] == s.txs;
    forall t | 0 <= t < |s.txs|
      ensures
        var i, answer := s.txs[t].op.orderId, now.txs[t].pc.answer;
        && i < |now.db.orders|
        && (IsPaid(now.db.orders[i].status) <==> answer.Ok?)
        && (answer.Err? ==> answer.error == InsufficientStock && now.db.orders[i].status == PendingVerification)
    {
      assert Racing(now.db, now.txs[t]) && now.txs[t].pc.Done? && s.txs[t].op == now.txs[t].op;
    }
  }
}
