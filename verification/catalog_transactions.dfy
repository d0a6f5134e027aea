/**
 * Any number of `confirm` and `reject` transactions running at once, one SQL statement at a time.
 *
 * The database is PostgreSQL at Read Committed: a statement sees the committed rows and the
 * transaction's own writes; an `updateMany` locks the row it changes until the transaction ends,
 * waits for a row another transaction holds, and checks its `where` against the row it finds after
 * the wait.  A transaction's writes stay private until it commits; an exception drops them.
 * The other service calls take effect in one step and wait for a locked row like any writer.
 */
module CatalogTransactions {
  import opened Wrappers
  import opened Text
  import opened CatalogOrders

  type Decision = op: Op | op.Confirm? || op.Reject? witness Op.Reject(0, 0, None, 0)

  /** What the first read of `confirm` fetched and its later statements use. */
  datatype Sale = Sale(productId: nat, siteId: nat, quantity: nat)

  /** The statement a transaction runs next. */
  datatype Pc =
    | Start
    | ClaimRow(sale: Sale)
    | TakeStock(sale: Sale)
    | PutBack
    | ReadBack
    | Commit(read: Order)
    | Abort(error: Error)
    | Explain
    | Done(answer: Answer)

  /** An uncommitted decrement of one product row. */
  datatype Taken = Taken(productId: nat, left: int)

  /** `row` and `stock` are the transaction's private writes; each also is the lock on its row. */
  datatype Tx = Tx(op: Decision, pc: Pc, row: Option<Order>, stock: Option<Taken>)

  datatype Sys = Sys(db: Db, txs: seq<Tx>)

  datatype Event = Step(t: nat) | Crash(t: nat) | Call(op: Op)

  predicate RowLocked(txs: seq<Tx>, i: nat) {
    exists u | 0 <= u < |txs| :: HoldsRow(txs[u], i)
  }

  predicate HoldsRow(tx: Tx, i: nat) { tx.row.Some? && tx.op.orderId == i }

  predicate StockLocked(txs: seq<Tx>, p: nat) {
    exists u | 0 <= u < |txs| :: HoldsStock(txs[u], p)
  }

  predicate HoldsStock(tx: Tx, p: nat) { tx.stock.Some? && tx.stock.value.productId == p }

  function Ended(tx: Tx, answer: Answer): Tx { tx.(pc := Done(answer), row := None, stock := None) }

  /** One statement of a transaction; `None` when it has to wait or has nothing left to do. */
  function Advance(s: Sys, tx: Tx): Option<Tx> {
    var i := tx.op.orderId;
    match tx.pc
    case Start =>
      if tx.op.Confirm? then
        if !Confirmable(s.db.orders, tx.op.userId, i) then Some(tx.(pc := Explain))
        else
          var o := s.db.orders[i];
          if o.productId.None? then Some(Ended(tx, Err(NoProduct)))
          else Some(tx.(pc := ClaimRow(Sale(o.productId.value, o.siteId, o.quantity))))
      else
        if !Rejectable(s.db.orders, tx.op.userId, i) then Some(tx.(pc := Explain))
        else if RowLocked(s.txs, i) then None
        else Some(tx.(row := Some(Refused(s.db.orders[i], tx.op.userId, tx.op.reason, tx.op.at)), pc := ReadBack))
    case ClaimRow(sale) =>
      if !Confirmable(s.db.orders, tx.op.userId, i) then Some(Ended(tx, Err(AlreadyDecided)))
      else if RowLocked(s.txs, i) then None
      else Some(tx.(row := Some(Claimed(s.db.orders[i], tx.op.userId, tx.op.at)), pc := TakeStock(sale)))
    case TakeStock(sale) =>
      if !Deductible(s.db.products, sale.productId, sale.siteId, sale.quantity) then Some(tx.(pc := PutBack))
      else if StockLocked(s.txs, sale.productId) then None
      else
        var left := s.db.products[sale.productId].stock - sale.quantity;
        Some(tx.(stock := Some(Taken(sale.productId, left)), pc := ReadBack))
    case PutBack =>
      Some(tx.(row := if tx.row.Some? then Some(Unclaimed(tx.row.value)) else None, pc := Abort(InsufficientStock)))
    case ReadBack =>
      if tx.row.Some? && tx.row.value.userId == tx.op.userId then Some(tx.(pc := Commit(tx.row.value)))
      else Some(tx.(pc := Abort(OrderNotFound)))
    case Commit(read) => Some(Ended(tx, Ok(read)))
    case Abort(error) => Some(Ended(tx, Err(error)))
    case Explain =>
      Some(Ended(tx, Err(
        if !Visible(s.db.orders, tx.op.userId, i) then OrderNotFound
        else if tx.op.Confirm? then CannotConfirm(s.db.orders[i].status)
        else CannotReject(s.db.orders[i].status))))
    case Done(_) => None
  }

  /** The tables with a transaction's private writes made public. */
  function Install(db: Db, tx: Tx): Db {
    var orders :=
      if tx.row.Some? && tx.op.orderId < |db.orders| then db.orders[tx.op.orderId := tx.row.value] else db.orders;
    var products :=
      if tx.stock.Some? && tx.stock.value.productId < |db.products| then
        var p := tx.stock.value.productId;
        db.products[p := db.products[p].(stock := tx.stock.value.left)]
      else db.products;
    db.(orders := orders, products := products)
  }

  /** The system after an event; `None` when the event cannot happen now. */
  function Next(s: Sys, e: Event): Option<Sys> {
    match e
    case Step(t) =>
      if t >= |s.txs| then None
      else
        var tx := s.txs[t];
        var tx' := Advance(s, tx);
        if tx'.None? then None
        else Some(Sys(if tx.pc.Commit? then Install(s.db, tx) else s.db, s.txs[t := tx'.value]))
    case Crash(t) =>
      if t >= |s.txs| || s.txs[t].pc.Done? then None
      else Some(s.(txs := s.txs[t := Ended(s.txs[t], Err(ServerFailure))]))
    case Call(op) =>
      if op.Confirm? || op.Reject? || MustWait(s, op) then None
      else Some(s.(db := After(s.db, op)))
  }

  predicate MustWait(s: Sys, op: Op) {
    if op.Edit? then
      EditAnswer(s.db, op.userId, op.productId, op.edit).Ok? && StockLocked(s.txs, op.productId)
    else
      !op.Create? && AnswerOf(s.db, op).Ok? && RowLocked(s.txs, op.orderId)
  }

  function Exec(s: Sys, events: seq<Event>): Option<Sys> {
    if events == [] then Some(s)
    else
      var before := Exec(s, events[..|events| - 1]);
      if before.None? then None else Next(before.value, events[|events| - 1])
  }

  /** The calls that took effect, in the order in which they did, with their answers. */
  function Log(s: Sys, events: seq<Event>): seq<Entry> {
    if events == [] then []
    else
      var before := Exec(s, events[..|events| - 1]);
      Log(s, events[..|events| - 1]) + if before.None? then [] else Logged(before.value, events[|events| - 1])
  }

  function Logged(s: Sys, e: Event): seq<Entry> {
    match e
    case Step(t) =>
      if t < |s.txs| && s.txs[t].pc.Commit? then [Entry(s.txs[t].op, OfOrder(Ok(s.txs[t].pc.read)))] else []
    case Crash(_) => []
    case Call(op) => [Entry(op, ReplyOf(s.db, op))]
  }

  // ----- what every step keeps -----

  /** A transaction past its last conditional statement: committing it now is the atomic call. */
  predicate Ready(db: Db, tx: Tx) {
    && AnswerOf(db, tx.op).Ok?
    && tx.row == Some(AnswerOf(db, tx.op).value)
    && tx.stock ==
         if tx.op.Confirm? then
           var o := db.orders[tx.op.orderId];
           Some(Taken(o.productId.value, db.products[o.productId.value].stock - o.quantity))
         else None
  }

  predicate Holding(db: Db, tx: Tx, sale: Sale) {
    && tx.op.Confirm?
    && Confirmable(db.orders, tx.op.userId, tx.op.orderId)
    && tx.row == Some(Claimed(db.orders[tx.op.orderId], tx.op.userId, tx.op.at))
    && Reads(db, tx, sale)
  }

  /** The stale first read still describes the row: product, site and quantity never change. */
  predicate Reads(db: Db, tx: Tx, sale: Sale) {
    && Visible(db.orders, tx.op.userId, tx.op.orderId)
    && db.orders[tx.op.orderId].productId == Some(sale.productId)
    && db.orders[tx.op.orderId].siteId == sale.siteId
    && db.orders[tx.op.orderId].quantity == sale.quantity
  }

  predicate TxInv(db: Db, tx: Tx) {
    match tx.pc
    case Start => tx.row.None? && tx.stock.None?
    case ClaimRow(sale) => tx.op.Confirm? && tx.row.None? && tx.stock.None? && Reads(db, tx, sale)
    case TakeStock(sale) => Holding(db, tx, sale) && tx.stock.None?
    case PutBack => tx.row.Some? && tx.stock.None? && tx.op.orderId < |db.orders|
    case ReadBack => Ready(db, tx)
    case Commit(read) => Ready(db, tx) && tx.row == Some(read)
    case Abort(error) => error == InsufficientStock && tx.row.Some? && tx.stock.None? && tx.op.orderId < |db.orders|
    case Explain => tx.row.None? && tx.stock.None?
    case Done(_) => tx.row.None? && tx.stock.None?
  }

  /** No two transactions hold the same row. */
  predicate Apart(a: Tx, b: Tx) {
    && !(a.row.Some? && b.row.Some? && a.op.orderId == b.op.orderId)
    && !(a.stock.Some? && b.stock.Some? && a.stock.value.productId == b.stock.value.productId)
  }

  ghost predicate SysInv(s: Sys) {
    && (forall t | 0 <= t < |s.txs| :: TxInv(s.db, s.txs[t]))
    && (forall t, u | 0 <= t < u < |s.txs| :: Apart(s.txs[t], s.txs[u]))
  }

  /** Every transaction still to begin, whatever the tables hold. */
  lemma FreshSystemIsGood(s: Sys)
    requires forall t | 0 <= t < |s.txs| :: s.txs[t] == Tx(s.txs[t].op, Start, None, None)
    ensures SysInv(s)
  {
  }

  lemma ReadyCommits(db: Db, tx: Tx)
    requires Ready(db, tx)
    ensures Install(db, tx) == After(db, tx.op)
  {
    if tx.op.Confirm? {
      assert Install(db, tx).products == After(db, tx.op).products;
    }
  }

  /** A change of the tables that leaves alone the rows a transaction holds keeps its invariant. */
  lemma Undisturbed(db: Db, db': Db, tx: Tx)
    requires TxInv(db, tx)
    requires |db.orders| <= |db'.orders| && |db.products| == |db'.products|
    requires forall i | 0 <= i < |db.orders| :: SameSale(db.orders[i], db'.orders[i])
    requires forall p | 0 <= p < |db.products| :: db.products[p].siteId == db'.products[p].siteId
    requires tx.row.Some? && tx.op.orderId < |db.orders| ==> db'.orders[tx.op.orderId] == db.orders[tx.op.orderId]
    requires tx.stock.Some? && tx.stock.value.productId < |db.products|
         ==> db'.products[tx.stock.value.productId] == db.products[tx.stock.value.productId]
    ensures TxInv(db', tx)
  {
  }

  lemma CommitDisturbsNobody(db: Db, tx: Tx, other: Tx)
    requires Ready(db, tx) && TxInv(db, other) && Apart(tx, other)
    ensures TxInv(Install(db, tx), other)
  {
    Undisturbed(db, Install(db, tx), other);
  }

  lemma CallDisturbsNobody(s: Sys, op: Op, t: nat)
    requires SysInv(s) && t < |s.txs| && !op.Confirm? && !op.Reject? && !MustWait(s, op)
    ensures TxInv(After(s.db, op), s.txs[t])
  {
    assert HoldsRow(s.txs[t], s.txs[t].op.orderId) <==> s.txs[t].row.Some?;
    assert s.txs[t].stock.Some? ==> HoldsStock(s.txs[t], s.txs[t].stock.value.productId);
    Undisturbed(s.db, After(s.db, op), s.txs[t]);
  }

  lemma AdvanceKeepsTxInv(s: Sys, t: nat)
    requires SysInv(s) && t < |s.txs| && Advance(s, s.txs[t]).Some? && !s.txs[t].pc.Commit?
    ensures TxInv(s.db, Advance(s, s.txs[t]).value)
  {
    assert TxInv(s.db, s.txs[t]);
  }

  /** A transaction never takes a row another one holds. */
  lemma AdvanceStaysApart(s: Sys, t: nat, u: nat)
    requires SysInv(s) && t < |s.txs| && u < |s.txs| && u != t && Advance(s, s.txs[t]).Some?
    ensures Apart(Advance(s, s.txs[t]).value, s.txs[u])
  {
    AdvanceTakesTheFree(s, s.txs[t]);
    assert Apart(s.txs[if t < u then t else u], s.txs[if t < u then u else t]);
    assert s.txs[u].row.Some? ==> HoldsRow(s.txs[u], s.txs[u].op.orderId);
    assert s.txs[u].stock.Some? ==> HoldsStock(s.txs[u], s.txs[u].stock.value.productId);
  }

  /** What a transaction holds after a statement it held before, or nobody did. */
  lemma AdvanceTakesTheFree(s: Sys, tx: Tx)
    requires Advance(s, tx).Some?
    ensures
      var next := Advance(s, tx).value;
      && next.op == tx.op
      && (next.row.Some? ==> tx.row.Some? || !RowLocked(s.txs, tx.op.orderId))
      && (next.stock.Some? ==> tx.stock == next.stock || !StockLocked(s.txs, next.stock.value.productId))
  {
  }

  lemma ReplaceTx(s: Sys, db': Db, t: nat, tx': Tx)
    requires SysInv(s) && t < |s.txs|
    requires TxInv(db', tx')
    requires forall u | 0 <= u < |s.txs| && u != t :: TxInv(db', s.txs[u]) && Apart(tx', s.txs[u])
    ensures SysInv(Sys(db', s.txs[t := tx']))
  {
  }

  lemma NextKeepsInv(s: Sys, e: Event)
    requires SysInv(s) && Next(s, e).Some?
    ensures SysInv(Next(s, e).value)
  {
    match e
    case Step(t) =>
      var tx := s.txs[t];
      if tx.pc.Commit? {
        forall u | 0 <= u < |s.txs| && u != t ensures TxInv(Install(s.db, tx), s.txs[u]) {
          assert Apart(s.txs[if t < u then t else u], s.txs[if t < u then u else t]);
          CommitDisturbsNobody(s.db, tx, s.txs[u]);
        }
        ReplaceTx(s, Install(s.db, tx), t, Ended(tx, Ok(tx.pc.read)));
      } else {
        AdvanceKeepsTxInv(s, t);
        forall u | 0 <= u < |s.txs| && u != t ensures Apart(Advance(s, tx).value, s.txs[u]) {
          AdvanceStaysApart(s, t, u);
        }
        ReplaceTx(s, s.db, t, Advance(s, tx).value);
      }
    case Crash(t) =>
      ReplaceTx(s, s.db, t, Ended(s.txs[t], Err(ServerFailure)));
    case Call(op) =>
      forall t | 0 <= t < |s.txs| ensures TxInv(After(s.db, op), s.txs[t]) { CallDisturbsNobody(s, op, t); }
  }

  lemma {:induction false} ExecKeepsInv(s: Sys, events: seq<Event>)
    requires SysInv(s) && Exec(s, events).Some?
    ensures SysInv(Exec(s, events).value)
  {
    if events != [] {
      ExecKeepsInv(s, events[..|events| - 1]);
      NextKeepsInv(Exec(s, events[..|events| - 1]).value, events[|events| - 1]);
    }
  }

  // ----- refinement -----

  lemma NextRefines(s: Sys, e: Event)
    requires SysInv(s) && Next(s, e).Some?
    ensures Next(s, e).value.db == Run(s.db, OpsOf(Logged(s, e)))
    ensures Replays(s.db, Logged(s, e))
  {
    match e
    case Step(t) =>
      if s.txs[t].pc.Commit? {
        ReadyCommits(s.db, s.txs[t]);
        RunOne(s.db, s.txs[t].op, OfOrder(Ok(s.txs[t].pc.read)));
      }
    case Crash(t) =>
    case Call(op) => RunOne(s.db, op, ReplyOf(s.db, op));
  }

  lemma RunOne(db: Db, op: Op, reply: Reply)
    ensures Run(db, OpsOf([Entry(op, reply)])) == After(db, op)
    ensures Replays(db, [Entry(op, reply)]) <==> ReplyOf(db, op) == reply
  {
    assert [Entry(op, reply)][1..] == [];
    assert OpsOf([Entry(op, reply)]) == [op] && [op][1..] == [];
    assert Run(After(db, op), []) == After(db, op);
  }

  /** Every interleaving refines the atomic service: the tables are what the calls that took effect
      make of them one after the other, and every one of those calls gets the answer it would have
      got running alone at its place in that order.  Aborted transactions are not in the log, so they
      leave no trace. */
  lemma {:induction false} Refines(s: Sys, events: seq<Event>)
    requires SysInv(s) && Exec(s, events).Some?
    ensures Exec(s, events).value.db == Run(s.db, OpsOf(Log(s, events)))
    ensures Replays(s.db, Log(s, events))
  {
    if events != [] {
      var init := events[..|events| - 1];
      var before := Exec(s, init).value;
      var last := Logged(before, events[|events| - 1]);
      Refines(s, init);
      ExecKeepsInv(s, init);
      NextRefines(before, events[|events| - 1]);
      ReplaysAppend(s.db, Log(s, init), last);
      OpsOfAppend(Log(s, init), last);
      RunAppend(s.db, OpsOf(Log(s, init)), OpsOf(last));
    }
  }

  /** Over a concurrent run each order is confirmed or rejected at most once. */
  lemma DecidedOnce(s: Sys, events: seq<Event>, i: nat)
    requires SysInv(s) && Exec(s, events).Some?
    ensures Decisions(Log(s, events), i) <= 1
  {
    Refines(s, events);
    AtMostOneDecision(s.db, Log(s, events), i);
  }

  // ----- every answer is one the atomic service gives during the call -----

  datatype Exception = NotFound | BadRequest | Conflict | Failure

  function ExceptionOf(e: Error): Exception {
    match e
    case SiteNotFound | ProductNotFound | OrderNotFound => NotFound
    case ProductInactive | OutOfStock | PaymentsNotConfigured | ContactNotFound => BadRequest
    case MediaNotFound | MediaNotImage | NoProduct | BadPincode | NoAddress | NoTracking => BadRequest
    case NotPayable | CannotConfirm(_) | AlreadyDecided | InsufficientStock => Conflict
    case CannotReject(_) | CannotSetAddress(_) | CannotShip(_) | CannotDeliver(_) => Conflict
    case ServerFailure => Failure
  }

  /** The tables after the first `k` events of a run. */
  function DbAt(s: Sys, events: seq<Event>, k: nat): Db
    requires k <= |events| && Exec(s, events[..k]).Some?
  {
    Exec(s, events[..k]).value.db
  }

  /** After the first `k` events the atomic call would have thrown `exception`. */
  predicate ThrowsAt(s: Sys, events: seq<Event>, op: Decision, exception: Exception, k: nat) {
    && k <= |events| && Exec(s, events[..k]).Some?
    && AnswerOf(DbAt(s, events, k), op).Err?
    && ExceptionOf(AnswerOf(DbAt(s, events, k), op).error) == exception
  }

  /** Event `k` is a statement of transaction `t` that performed the atomic call, with this answer. */
  predicate PerformsAt(s: Sys, events: seq<Event>, t: nat, op: Decision, answer: Answer, k: nat) {
    && k < |events| && events[k] == Step(t) && Exec(s, events[..k]).Some? && Exec(s, events[..k + 1]).Some?
    && AnswerOf(DbAt(s, events, k), op) == answer
    && DbAt(s, events, k + 1) == After(DbAt(s, events, k), op)
  }

  ghost predicate Throws(s: Sys, events: seq<Event>, from: nat, op: Decision, exception: Exception) {
    exists k: nat :: from <= k && ThrowsAt(s, events, op, exception, k)
  }

  ghost predicate Performs(s: Sys, events: seq<Event>, from: nat, t: nat, op: Decision, answer: Answer) {
    exists k: nat :: from <= k && PerformsAt(s, events, t, op, answer, k)
  }

  /** What the second read of the error path would answer now. */
  function Explanation(db: Db, op: Decision): Exception {
    if Visible(db.orders, op.userId, op.orderId) then Conflict else NotFound
  }

  /** The exception a failing transaction has settled on. */
  function Verdict(db: Db, tx: Tx): Option<Exception> {
    match tx.pc
    case Explain => Some(Explanation(db, tx.op))
    case PutBack => Some(Conflict)
    case Abort(error) => Some(ExceptionOf(error))
    case Done(Err(error)) => if error == ServerFailure then None else Some(ExceptionOf(error))
    case _ => None
  }

  ghost predicate Justified(s: Sys, events: seq<Event>, from: nat, t: nat, tx: Tx)
    requires Exec(s, events).Some?
  {
    var verdict := Verdict(Exec(s, events).value.db, tx);
    && (verdict.Some? ==> Throws(s, events, from, tx.op, verdict.value))
    && (tx.pc.Done? && tx.pc.answer.Ok? ==> Performs(s, events, from, t, tx.op, tx.pc.answer))
  }

  lemma ExecPrefix(s: Sys, events: seq<Event>, k: nat)
    requires Exec(s, events).Some? && k <= |events|
    ensures Exec(s, events[..k]).Some?
  {
    if k == |events| {
      assert events[..k] == events;
    } else {
      ExecPrefix(s, events[..|events| - 1], k);
      assert events[..|events| - 1][..k] == events[..k];
    }
  }

  /** What held of a run holds of it with one more event. */
  lemma Longer(s: Sys, events: seq<Event>, from: nat, e: Event, t: nat, op: Decision)
    requires Exec(s, events + [e]).Some?
    ensures Exec(s, events).Some? && Next(Exec(s, events).value, e) == Exec(s, events + [e])
    ensures forall x :: Throws(s, events, from, op, x) ==> Throws(s, events + [e], from, op, x)
    ensures forall a :: Performs(s, events, from, t, op, a) ==> Performs(s, events + [e], from, t, op, a)
  {
    assert (events + [e])[..|events|] == events;
    forall x | Throws(s, events, from, op, x) ensures Throws(s, events + [e], from, op, x) {
      StillThrows(s, events, from, e, op, x);
    }
    forall a | Performs(s, events, from, t, op, a) ensures Performs(s, events + [e], from, t, op, a) {
      StillPerforms(s, events, from, e, t, op, a);
    }
  }

  lemma StillThrows(s: Sys, events: seq<Event>, from: nat, e: Event, op: Decision, x: Exception)
    requires Throws(s, events, from, op, x)
    ensures Throws(s, events + [e], from, op, x)
  {
    var k: nat :| from <= k && ThrowsAt(s, events, op, x, k);
    assert (events + [e])[..k] == events[..k];
    assert ThrowsAt(s, events + [e], op, x, k);
  }

  lemma StillPerforms(s: Sys, events: seq<Event>, from: nat, e: Event, t: nat, op: Decision, a: Answer)
    requires Performs(s, events, from, t, op, a)
    ensures Performs(s, events + [e], from, t, op, a)
  {
    var k: nat :| from <= k && PerformsAt(s, events, t, op, a, k);
    assert (events + [e])[..k] == events[..k] && (events + [e])[..k + 1] == events[..k + 1];
    assert PerformsAt(s, events + [e], t, op, a, k);
  }

  /** The call would have thrown just before, or just after, the last event. */
  lemma ThrowsNow(s: Sys, events: seq<Event>, from: nat, e: Event, op: Decision)
    requires Exec(s, events + [e]).Some? && from <= |events|
    ensures Exec(s, events).Some?
    ensures var a := AnswerOf(Exec(s, events).value.db, op);
      a.Err? ==> Throws(s, events + [e], from, op, ExceptionOf(a.error))
    ensures var a := AnswerOf(Exec(s, events + [e]).value.db, op);
      a.Err? ==> Throws(s, events + [e], from, op, ExceptionOf(a.error))
  {
    var longer := events + [e];
    var n := |events|;
    assert longer[..n] == events && longer[..n + 1] == longer && longer[..|longer| - 1] == events;
    var before := AnswerOf(Exec(s, events).value.db, op);
    if before.Err? { assert ThrowsAt(s, longer, op, ExceptionOf(before.error), n); }
    var after := AnswerOf(Exec(s, longer).value.db, op);
    if after.Err? { assert ThrowsAt(s, longer, op, ExceptionOf(after.error), n + 1); }
  }

  /** The statement that settles on an exception does so where the atomic call would throw it. */
  lemma VerdictIsAtomic(s: Sys, tx: Tx)
    requires TxInv(s.db, tx) && Advance(s, tx).Some? && !tx.pc.Commit?
    ensures var after := Advance(s, tx).value;
      && !(after.pc.Done? && after.pc.answer.Ok?)
      && (Verdict(s.db, after).Some? ==>
            || Verdict(s.db, tx) == Verdict(s.db, after)
            || (AnswerOf(s.db, tx.op).Err? && ExceptionOf(AnswerOf(s.db, tx.op).error) == Verdict(s.db, after).value))
  {
  }

  lemma PerformsLast(
    s: Sys, events: seq<Event>, longer: seq<Event>, from: nat, n: nat, t: nat, op: Decision, answer: Answer)
    requires from <= n < |longer| && longer[n] == Step(t) && longer[..n] == events && n + 1 == |longer|
    requires Exec(s, events).Some? && Exec(s, longer).Some?
    requires AnswerOf(Exec(s, events).value.db, op) == answer
    requires Exec(s, longer).value.db == After(Exec(s, events).value.db, op)
    ensures Performs(s, longer, from, t, op, answer)
  {
    assert longer[..n + 1] == longer;
    assert PerformsAt(s, longer, t, op, answer, n);
  }

  /** `next` is the state one event after `now`. */
  ghost predicate OneEvent(s: Sys, events: seq<Event>, e: Event, now: Sys, next: Sys) {
    Exec(s, events) == Some(now) && Exec(s, events + [e]) == Some(next) && Next(now, e) == Some(next)
  }

  lemma StepJustified(s: Sys, events: seq<Event>, from: nat, t: nat, now: Sys, next: Sys)
    requires OneEvent(s, events, Step(t), now, next) && SysInv(now) && from <= |events|
    requires t < |now.txs| && Justified(s, events, from, t, now.txs[t])
    requires t < |next.txs|
    ensures Justified(s, events + [Step(t)], from, t, next.txs[t])
  {
    var tx := now.txs[t];
    Longer(s, events, from, Step(t), t, tx.op);
    assert next.txs[t] == Advance(now, tx).value && TxInv(now.db, tx);
    if tx.pc.Commit? {
      ReadyCommits(now.db, tx);
      assert (events + [Step(t)])[..|events|] == events;
      PerformsLast(s, events, events + [Step(t)], from, |events|, t, tx.op, Ok(tx.pc.read));
    } else {
      assert next.db == now.db;
      VerdictIsAtomic(now, tx);
      ThrowsNow(s, events, from, Step(t), tx.op);
    }
  }

  lemma OthersJustified(s: Sys, events: seq<Event>, from: nat, e: Event, t: nat, now: Sys, next: Sys)
    requires OneEvent(s, events, e, now, next) && SysInv(now) && from <= |events|
    requires t < |now.txs| && Justified(s, events, from, t, now.txs[t]) && e != Step(t) && e != Crash(t)
    ensures Justified(s, events + [e], from, t, now.txs[t])
  {
    var tx := now.txs[t];
    Longer(s, events, from, e, t, tx.op);
    if tx.pc.Explain? {
      if Explanation(next.db, tx.op) != Explanation(now.db, tx.op) {
        VisibilityChanges(now, e, tx.op);
        ThrowsNow(s, events, from, e, tx.op);
      }
    } else {
      assert Verdict(next.db, tx) == Verdict(now.db, tx);
    }
  }

  /** An order comes into sight only when it is created, and a new order cannot be decided yet. */
  lemma VisibilityChanges(s: Sys, e: Event, op: Decision)
    requires SysInv(s) && Next(s, e).Some?
    ensures Visible(s.db.orders, op.userId, op.orderId) ==> Visible(Next(s, e).value.db.orders, op.userId, op.orderId)
    ensures !Visible(s.db.orders, op.userId, op.orderId) && Visible(Next(s, e).value.db.orders, op.userId, op.orderId)
        ==> AnswerOf(Next(s, e).value.db, op).Err?
            && ExceptionOf(AnswerOf(Next(s, e).value.db, op).error) == Conflict
  {
    match e
    case Step(t) =>
      if s.txs[t].pc.Commit? {
        assert TxInv(s.db, s.txs[t]);
        CommitKeepsVisible(s.db, s.txs[t], op);
      }
    case Crash(_) =>
    case Call(call) => CallShows(s.db, call, op);
  }

  lemma CommitKeepsVisible(db: Db, tx: Tx, op: Decision)
    requires Ready(db, tx)
    ensures Visible(Install(db, tx).orders, op.userId, op.orderId) <==> Visible(db.orders, op.userId, op.orderId)
  {
  }

  lemma CallShows(db: Db, call: Op, op: Decision)
    requires !call.Confirm? && !call.Reject?
    ensures Visible(db.orders, op.userId, op.orderId) ==> Visible(After(db, call).orders, op.userId, op.orderId)
    ensures !Visible(db.orders, op.userId, op.orderId) && Visible(After(db, call).orders, op.userId, op.orderId)
        ==> AnswerOf(After(db, call), op).Err? && ExceptionOf(AnswerOf(After(db, call), op).error) == Conflict
  {
  }

  /** Each finished transaction behaved as if it had run alone at one instant between its first statement
      and its answer: an answered order is what the atomic call gives and does at that instant, which is
      a statement of its own; a thrown exception is of the kind the atomic call throws there.  The first
      statement is not among the first `from` events; cut the run at the answer, and the instant comes
      no later than it. */
  lemma {:induction false} Linearizable(s: Sys, events: seq<Event>, from: nat, t: nat)
    requires SysInv(s) && Exec(s, events).Some?
    requires from <= |events| && Exec(s, events[..from]).Some?
    requires t < |Exec(s, events[..from]).value.txs| && Exec(s, events[..from]).value.txs[t].pc == Start
    ensures
      var begun, now := Exec(s, events[..from]).value, Exec(s, events).value;
      t < |now.txs| && now.txs[t].op == begun.txs[t].op && Justified(s, events, from, t, now.txs[t])
    decreases |events|
  {
    if from == |events| {
      assert events[..from] == events;
    } else {
      var init := events[..|events| - 1];
      var e := events[|events| - 1];
      assert events == init + [e] && init[..from] == events[..from];
      Linearizable(s, init, from, t);
      ExecKeepsInv(s, init);
      OneMoreEvent(s, init, from, e, t);
    }
  }

  lemma OneMoreEvent(s: Sys, events: seq<Event>, from: nat, e: Event, t: nat)
    requires SysInv(s) && Exec(s, events + [e]).Some? && from <= |events|
    requires Exec(s, events).Some? && t < |Exec(s, events).value.txs| && SysInv(Exec(s, events).value)
    requires Justified(s, events, from, t, Exec(s, events).value.txs[t])
    ensures
      var now, next := Exec(s, events).value, Exec(s, events + [e]).value;
      t < |next.txs| && next.txs[t].op == now.txs[t].op && Justified(s, events + [e], from, t, next.txs[t])
  {
    var now, next := Exec(s, events).value, Exec(s, events + [e]).value;
    assert (events + [e])[..|events|] == events;
    assert OneEvent(s, events, e, now, next);
    NextKeepsOps(now, e, t);
    if e == Step(t) {
      StepJustified(s, events, from, t, now, next);
    } else if e != Crash(t) {
      OthersJustified(s, events, from, e, t, now, next);
    }
  }

  lemma NextKeepsOps(s: Sys, e: Event, t: nat)
    requires Next(s, e).Some? && t < |s.txs|
    ensures
      var txs := Next(s, e).value.txs;
      t < |txs| && txs[t].op == s.txs[t].op
      && (e != Step(t) && e != Crash(t) ==> txs[t] == s.txs[t])
      && (e == Crash(t) ==> txs[t] == Ended(s.txs[t], Err(ServerFailure)))
  {
  }

  // ----- progress -----

  function Rank(pc: Pc): nat {
    match pc
    case Start => 5
    case ClaimRow(_) => 4
    case TakeStock(_) => 3
    case PutBack | ReadBack => 2
    case Commit(_) | Abort(_) | Explain => 1
    case Done(_) => 0
  }

  function Remaining(txs: seq<Tx>): nat {
    if txs == [] then 0 else Remaining(txs[..|txs| - 1]) + Rank(txs[|txs| - 1].pc)
  }

  lemma {:induction false} RemainingUpdate(txs: seq<Tx>, t: nat, tx: Tx)
    requires t < |txs|
    ensures Remaining(txs[t := tx]) == Remaining(txs) - Rank(txs[t].pc) + Rank(tx.pc)
  {
    var n := |txs| - 1;
    if t == n {
      assert txs[t := tx][..n] == txs[..n];
    } else {
      assert txs[t := tx][..n] == txs[..n][t := tx];
      RemainingUpdate(txs[..n], t, tx);
    }
  }

  lemma {:induction false} RemainingBound(txs: seq<Tx>)
    ensures Remaining(txs) <= 5 * |txs|
  {
    if txs != [] { RemainingBound(txs[..|txs| - 1]); }
  }

  /** A transaction that holds a product row waits for nobody. */
  lemma StockHolderMoves(s: Sys, u: nat, p: nat)
    requires SysInv(s) && u < |s.txs| && HoldsStock(s.txs[u], p)
    ensures Next(s, Step(u)).Some?
  {
    assert TxInv(s.db, s.txs[u]);
  }

  /** A transaction that holds an order row waits at most for a product row. */
  lemma RowHolderMoves(s: Sys, u: nat, i: nat) returns (v: nat)
    requires SysInv(s) && u < |s.txs| && HoldsRow(s.txs[u], i)
    ensures Next(s, Step(v)).Some?
  {
    v := u;
    assert TxInv(s.db, s.txs[u]);
    if Next(s, Step(u)).None? {
      var p := s.txs[u].pc.sale.productId;
      assert StockLocked(s.txs, p);
      v :| 0 <= v < |s.txs| && HoldsStock(s.txs[v], p);
      StockHolderMoves(s, v, p);
    }
  }

  /** No deadlock: while a transaction is unfinished, some transaction can run its next statement. */
  lemma SomeoneMoves(s: Sys, t: nat) returns (v: nat)
    requires SysInv(s) && t < |s.txs| && !s.txs[t].pc.Done?
    ensures Next(s, Step(v)).Some?
  {
    v := t;
    assert TxInv(s.db, s.txs[t]);
    if Next(s, Step(t)).None? {
      if s.txs[t].pc.TakeStock? {
        v := RowHolderMoves(s, t, s.txs[t].op.orderId);
      } else {
        var i := s.txs[t].op.orderId;
        var u :| 0 <= u < |s.txs| && HoldsRow(s.txs[u], i);
        v := RowHolderMoves(s, u, i);
      }
    }
  }

  function TxEvents(events: seq<Event>): nat {
    if events == [] then 0
    else TxEvents(events[..|events| - 1]) + (if events[|events| - 1].Call? then 0 else 1)
  }

  lemma NextRank(s: Sys, e: Event)
    requires Next(s, e).Some?
    ensures |Next(s, e).value.txs| == |s.txs|
    ensures e.Call? ==> Next(s, e).value.txs == s.txs
    ensures !e.Call? ==> Remaining(Next(s, e).value.txs) < Remaining(s.txs)
  {
    match e
    case Step(t) =>
      StepRanks(s, s.txs[t]);
      RemainingUpdate(s.txs, t, Advance(s, s.txs[t]).value);
    case Crash(t) => RemainingUpdate(s.txs, t, Ended(s.txs[t], Err(ServerFailure)));
    case Call(_) =>
  }

  lemma StepRanks(s: Sys, tx: Tx)
    requires Advance(s, tx).Some?
    ensures Rank(Advance(s, tx).value.pc) < Rank(tx.pc)
  {
  }

  /** Whatever the scheduler and the other calls do, `n` transactions take at most `5 n` steps. */
  lemma {:induction false} StepsAreBounded(s: Sys, events: seq<Event>)
    requires Exec(s, events).Some?
    ensures |Exec(s, events).value.txs| == |s.txs|
    ensures Remaining(Exec(s, events).value.txs) + TxEvents(events) <= Remaining(s.txs) <= 5 * |s.txs|
  {
    RemainingBound(s.txs);
    if events != [] {
      var init := events[..|events| - 1];
      StepsAreBounded(s, init);
      NextRank(Exec(s, init).value, events[|events| - 1]);
    }
  }

  // ----- stock under concurrency -----

  /** The transactions that only have to commit, as calls with their answers. */
  function ReadyLog(txs: seq<Tx>): seq<Entry> {
    if txs == [] then []
    else
      (if (txs[0].pc.ReadBack? || txs[0].pc.Commit?) && txs[0].row.Some?
       then [Entry(txs[0].op, OfOrder(Ok(txs[0].row.value)))] else [])
      + ReadyLog(txs[1..])
  }

  /** All transactions that are ready can commit, one after the other. */
  lemma {:induction false} ReadyTogether(s: Sys)
    requires SysInv(s)
    ensures Replays(s.db, ReadyLog(s.txs))
    decreases |s.txs|
  {
    if s.txs != [] {
      var tx := s.txs[0];
      var rest := s.txs[1..];
      if tx.pc.ReadBack? || tx.pc.Commit? {
        assert TxInv(s.db, tx);
        ReadyCommits(s.db, tx);
        forall u | 0 <= u < |rest| ensures TxInv(Install(s.db, tx), rest[u]) {
          assert rest[u] == s.txs[u + 1] && Apart(s.txs[0], s.txs[u + 1]);
          CommitDisturbsNobody(s.db, tx, rest[u]);
        }
        ReadyTogether(Sys(Install(s.db, tx), rest));
        assert ReadyLog(s.txs)[1..] == ReadyLog(rest);
      } else {
        ReadyTogether(Sys(s.db, rest));
        assert ReadyLog(s.txs) == ReadyLog(rest);
      }
    }
  }

  lemma {:induction false} ReadyLogHasNoStockUpdates(txs: seq<Tx>, db: Db, p: nat)
    ensures Adjusted(db, OpsOf(ReadyLog(txs)), p) == 0
    decreases |txs|
  {
    if txs != [] {
      var ops := OpsOf(ReadyLog(txs));
      if ops != [] && ReadyLog(txs) != ReadyLog(txs[1..]) {
        assert ReadyLog(txs)[1..] == ReadyLog(txs[1..]) && ops[1..] == OpsOf(ReadyLog(txs[1..]));
        ReadyLogHasNoStockUpdates(txs[1..], After(db, ops[0]), p);
      } else {
        ReadyLogHasNoStockUpdates(txs[1..], db, p);
      }
    }
  }

  /** Stock is conserved in every reachable state, the claims in flight included, and never negative:
      `all` are the tables with the writes of every ready transaction. */
  lemma StockConserved(s: Sys, events: seq<Event>, p: nat)
    requires SysInv(s) && DbInv(s.db) && Exec(s, events).Some? && p < |s.db.products|
    ensures var now := Exec(s, events).value;
      var all := Run(now.db, OpsOf(ReadyLog(now.txs)));
      && DbInv(now.db) && DbInv(all) && p < |now.db.products| && p < |all.products|
      && Total(now.db, p) == Total(s.db, p) + Adjusted(s.db, OpsOf(Log(s, events)), p)
      && Total(all, p) == Total(now.db, p)
      && all.products[p].stock >= 0
  {
    var now := Exec(s, events).value;
    Refines(s, events);
    ExecKeepsInv(s, events);
    RunConserves(s.db, OpsOf(Log(s, events)), p);
    RunKeepsInv(s.db, OpsOf(Log(s, events)));
    ReadyLogHasNoStockUpdates(now.txs, now.db, p);
    RunConserves(now.db, OpsOf(ReadyLog(now.txs)), p);
    RunKeepsInv(now.db, OpsOf(ReadyLog(now.txs)));
  }

  lemma {:induction false} DeductedMonotone(a: seq<Order>, b: seq<Order>, p: nat)
    requires |a| <= |b| && forall k | 0 <= k < |a| :: Units(a[k], p) <= Units(b[k], p)
    ensures Deducted(a, p) <= Deducted(b, p)
    decreases |b|
  {
    if |a| < |b| {
      DeductedMonotone(a, b[..|b| - 1], p);
    } else if b != [] {
      DeductedMonotone(a[..|a| - 1], b[..|b| - 1], p);
    }
  }

  /** Two orders that wait for one last unit are never both confirmed, however their transactions
      interleave, unless the owner adds stock. */
  lemma LastUnitSoldOnce(s: Sys, events: seq<Event>, p: nat, i: nat, j: nat)
    requires SysInv(s) && DbInv(s.db) && Exec(s, events).Some? && p < |s.db.products|
    requires i < |s.db.orders| && j < |s.db.orders| && i != j
    requires s.db.orders[i].productId == Some(p) && s.db.orders[i].status == PendingVerification
    requires s.db.orders[j].productId == Some(p) && s.db.orders[j].status == PendingVerification
    requires s.db.products[p].stock + Adjusted(s.db, OpsOf(Log(s, events)), p) <= 1
    ensures var orders := Exec(s, events).value.db.orders;
      && |orders| >= |s.db.orders|
      && !(IsPaid(orders[i].status) && IsPaid(orders[j].status))
  {
    var a, b := s.db.orders, Exec(s, events).value.db.orders;
    var ops := OpsOf(Log(s, events));
    Refines(s, events);
    StockConserved(s, events, p);
    RunOnlyMovesForward(s.db, ops, i);
    assert |b| >= |a| by { RunOnlyMovesForward(s.db, ops, |a| - 1); }
    forall k | 0 <= k < |a| ensures Units(a[k], p) <= Units(b[k], p) && SameSale(a[k], b[k]) {
      RunOnlyMovesForward(s.db, ops, k);
      assert OrderInv(a[k]) && OrderInv(b[k]);
    }
    if IsPaid(b[i].status) && IsPaid(b[j].status) {
      assert OrderInv(a[i]) && OrderInv(a[j]) && OrderInv(b[i]) && OrderInv(b[j]);
      TwoMoreDeducted(a, b, p, i, j);
      assert false;
    }
  }

  lemma TwoMoreDeducted(a: seq<Order>, b: seq<Order>, p: nat, i: nat, j: nat)
    requires |a| <= |b| && i < |a| && j < |a| && i != j
    requires forall k | 0 <= k < |a| :: Units(a[k], p) <= Units(b[k], p)
    requires Units(a[i], p) < Units(b[i], p) && Units(a[j], p) < Units(b[j], p)
    ensures Deducted(a, p) + 2 <= Deducted(b, p)
  {
    var back := b[i := a[i]][j := a[j]];
    DeductedUpdate(b, i, a[i], p);
    DeductedUpdate(b[i := a[i]], j, a[j], p);
    DeductedMonotone(a, back, p);
  }

  // ----- writes that come late -----

  /** The columns each of the four calls writes by id alone, applied to whatever row is there by then. */
  function Attached(row: Order, mediaId: nat): Order {
    row.(screenshot := Some(mediaId), payment := PaymentSubmitted, status := PendingVerification)
  }

  function Addressed(row: Order, address: Address): Order { row.(address := Some(address), status := ReadyToShip) }

  function Sent(row: Order, shipment: Shipment): Order { row.(status := Shipped, shipment := Some(shipment)) }

  function Handed(row: Order, at: int): Order { row.(status := Delivered, deliveredAt := Some(at)) }

  /** A write is harmless: the row stays consistent, and has only moved forward. */
  predicate Harmless(row: Order, written: Order) { OrderInv(written) && Follows(row, written) }

  /** `attachScreenshot` reads and then writes by id alone.  A write that arrives later is harmless
      exactly while the order still waits for payment or verification. */
  lemma LateWriteIsSafeOnlyWhilePending(row: Order, mediaId: nat)
    requires OrderInv(row)
    ensures OrderInv(Attached(row, mediaId)) <==> row.status == PendingPayment || row.status == PendingVerification
    ensures Harmless(row, Attached(row, mediaId)) <==> OrderInv(Attached(row, mediaId))
  {
  }

  /** A late address is harmless exactly while the order is confirmed or ready to ship. */
  lemma LateAddressIsSafeIff(row: Order, address: Address)
    requires OrderInv(row) && GoodAddress(address)
    ensures Harmless(row, Addressed(row, address)) <==> row.status == Confirmed || row.status == ReadyToShip
  {
  }

  /** A late shipment is harmless exactly while the order is ready to ship and still has an address line, or when it
      repeats the shipment that is there. */
  lemma LateShipmentIsSafeIff(row: Order, shipment: Shipment)
    requires OrderInv(row) && |shipment.tracking| >= 3
    ensures Harmless(row, Sent(row, shipment)) <==>
      (|| (row.status == ReadyToShip && row.address.value.line != "")
       || (row.status == Shipped && row.shipment == Some(shipment)))
  {
  }

  /** A late delivery is harmless exactly while the order is shipped, or when it repeats the instant that is there. */
  lemma LateDeliveryIsSafeIff(row: Order, at: int)
    requires OrderInv(row)
    ensures Harmless(row, Handed(row, at)) <==>
      row.status == Shipped || (row.status == Delivered && row.deliveredAt == Some(at))
  {
  }

  /** Read, ship, late address: a shipped order is ready to ship again, and can be shipped a second time. */
  lemma LateAddressShipsTwice(
    db: Db, userId: nat, i: nat, address: AddressRequest, first: ShipRequest, second: ShipRequest, at: int, later: int)
    requires SetAddressAnswer(db, userId, i, address).Ok? && Trim(address.line) != ""
    requires ShipAnswer(db, userId, i, first, at).Ok? && |Trim(second.tracking)| >= 3
    ensures
      var shipped := After(db, Ship(userId, i, first, at));
      var newAddress := SetAddressAnswer(db, userId, i, address).value.address.value;
      var written := shipped.(orders := shipped.orders[i := Addressed(shipped.orders[i], newAddress)]);
      && shipped.orders[i].status == Shipped && written.orders[i].status == ReadyToShip
      && ShipAnswer(written, userId, i, second, later).Ok?
  {
  }

  /** Read, confirm, late write, confirm: one order takes its quantity from stock twice. */
  lemma LateScreenshotSellsTwice(db: Db, userId: nat, i: nat, mediaId: nat, first: int, second: int)
    requires AttachAnswer(db, userId, i, mediaId).Ok? && ConfirmAnswer(db, userId, i, first).Ok?
    requires db.products[db.orders[i].productId.value].stock >= 2 * db.orders[i].quantity
    ensures var confirmed := After(db, Confirm(userId, i, first));
      var written := confirmed.(orders := confirmed.orders[i := Attached(confirmed.orders[i], mediaId)]);
      var p := db.orders[i].productId.value;
      && ConfirmAnswer(written, userId, i, second).Ok?
      && After(written, Confirm(userId, i, second)).products[p].stock
         == db.products[p].stock - 2 * db.orders[i].quantity
  {
  }
}
