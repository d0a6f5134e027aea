/**
 * Manual UPI payments, their expiry, Razorpay events and the daily job, as they act on three tables:
 * users, payment submissions and the transaction ledger.  Row ids are positions in their tables.
 */
module Billing {
  import opened Wrappers
  import opened Text
  import opened BillingAccess
  import Lifecycle

  datatype Product = Platform | Website

  datatype SubmissionStatus = Pending | Approved | Refused | Lapsed

  datatype Submission = Submission(
    userId: nat, product: Product, plan: Plan, amountInr: nat, utr: string, status: SubmissionStatus,
    createdAt: int, rejectionReason: Option<string>, reviewedBy: Option<nat>, reviewedAt: Option<int>,
    txnId: Option<nat>)

  datatype EventType = ManualApproved | ManualRejected | CheckoutActivated | SubscriptionCharged

  datatype Txn = Txn(
    userId: nat, product: Product, event: EventType, paymentId: Option<string>, subscriptionId: Option<string>,
    plan: Option<Plan>, amountInr: nat, status: string, submissionId: Option<nat>)

  datatype Store = Store(users: seq<User>, submissions: seq<Submission>, ledger: seq<Txn>)

  datatype Error =
    | BillingDisabled | WebsiteBillingDisabled | UpiDisabled | InvalidUtr | NoProof | ProofTooLarge
    | UserNotFound | AlreadyActive | AlreadyUnderReview | DuplicateUtr
    | SubmissionNotFound | NotPending(status: SubmissionStatus) | UtrAlreadyApproved

  /** What a Razorpay subscription event means for the account. */
  datatype EventKind = Renewing | Failing | Ending | OtherEvent

  datatype Charge = Charge(paymentId: Option<string>, amountInr: nat, status: string)

  datatype Op =
    | Submit(userId: nat, product: Product, plan: Plan, rawUtr: string, proofBytes: nat, now: int)
    | Approve(id: nat, adminId: nat, accessEnd: int, now: int)
    | Reject(id: nat, adminId: nat, reason: string, now: int)
    | Expire(id: nat, now: int)
    | Subscription(userId: nat, kind: EventKind, planNote: Option<Plan>, accessEnd: int, subscriptionId: string,
                   charge: Option<Charge>)
    | Checkout(userId: nat, paymentId: string, accessEnd: int, subscriptionId: string, amountInr: nat, status: string)
    | Remind(now: int, windowDays: nat, delivered: set<nat>)

  const MAX_PROOF_BYTES := 5 * 1024 * 1024

  const DEFAULT_REASON := "Payment could not be verified."

  // ----- submit -----

  function NormalizeUtr(raw: string): string { Filter(raw, c => !IsSpace(c)) }

  predicate ValidUtr(utr: string) { 8 <= |utr| <= 64 && forall c :: c in utr ==> IsAlphanumeric(c) }

  function Price(c: Config, product: Product, plan: Plan): nat {
    match (product, plan)
    case (Website, Monthly) => c.prices.websiteMonthly
    case (Website, Yearly) => c.prices.websiteYearly
    case (Platform, Monthly) => c.prices.monthly
    case (Platform, Yearly) => c.prices.yearly
  }

  predicate Live(status: SubmissionStatus) { status == Pending || status == Approved }

  /** The duplicate query of `submitManualPayment`. */
  predicate UtrInUse(submissions: seq<Submission>, product: Product, utr: string) {
    exists i :: 0 <= i < |submissions|
      && submissions[i].product == product && submissions[i].utr == utr && Live(submissions[i].status)
  }

  function ShownStatus(c: Config, u: User, product: Product, now: int): Status {
    if product == Website then ResolveWebsiteStatus(c, u, now).status else ResolveStatus(c, u, now).status
  }

  function SubmitAnswer(c: Config, s: Store, op: Op): Result<nat, Error>
    requires op.Submit?
  {
    var utr := NormalizeUtr(op.rawUtr);
    if !c.billingEnabled then Err(BillingDisabled)
    else if op.product == Website && !WebsiteBillingEnabled(c) then Err(WebsiteBillingDisabled)
    else if !c.upiManualEnabled then Err(UpiDisabled)
    else if !ValidUtr(utr) then Err(InvalidUtr)
    else if op.proofBytes == 0 then Err(NoProof)
    else if op.proofBytes > MAX_PROOF_BYTES then Err(ProofTooLarge)
    else if op.userId >= |s.users| then Err(UserNotFound)
    else
      var shown := ShownStatus(c, s.users[op.userId], op.product, op.now);
      if shown == Active then Err(AlreadyActive)
      else if shown == PendingVerification then Err(AlreadyUnderReview)
      else if UtrInUse(s.submissions, op.product, utr) then Err(DuplicateUtr)
      else Ok(|s.submissions|)
  }

  /** The columns a product's subscription occupies in the user row. */
  function WithStatus(u: User, product: Product, status: Status): User {
    if product == Website then u.(websiteStatus := status) else u.(status := status)
  }

  function WithPlan(u: User, product: Product, plan: Option<Plan>): User {
    if product == Website then u.(websitePlan := plan) else u.(plan := plan)
  }

  function WithPeriodEnd(u: User, product: Product, end: Option<int>): User {
    if product == Website then u.(websitePeriodEnd := end) else u.(periodEnd := end)
  }

  function StatusOf(u: User, product: Product): Status { if product == Website then u.websiteStatus else u.status }

  function AfterSubmit(c: Config, s: Store, op: Op): Store
    requires op.Submit?
  {
    if SubmitAnswer(c, s, op).Err? then s
    else
      var row := Submission(op.userId, op.product, op.plan, Price(c, op.product, op.plan), NormalizeUtr(op.rawUtr),
                            Pending, op.now, None, None, None, None);
      var user := WithPlan(WithStatus(s.users[op.userId], op.product, PendingVerification), op.product, Some(op.plan));
      s.(submissions := s.submissions + [row], users := s.users[op.userId := user])
  }

  // ----- review -----

  function ReviewAnswer(s: Store, id: nat): Result<nat, Error> {
    if id >= |s.submissions| then Err(SubmissionNotFound)
    else if s.submissions[id].status != Pending then Err(NotPending(s.submissions[id].status))
    else Ok(id)
  }

  predicate ApprovedElsewhere(submissions: seq<Submission>, id: nat)
    requires id < |submissions|
  {
    exists i :: 0 <= i < |submissions| && i != id && submissions[i].product == submissions[id].product
      && submissions[i].utr == submissions[id].utr && submissions[i].status == Approved
  }

  function ApproveAnswer(s: Store, id: nat): Result<nat, Error> {
    if ReviewAnswer(s, id).Err? then ReviewAnswer(s, id)
    else if ApprovedElsewhere(s.submissions, id) then Err(UtrAlreadyApproved)
    else Ok(id)
  }

  function ManualRow(row: Submission, id: nat, event: EventType, status: string): Txn {
    Txn(row.userId, row.product, event, None, None, Some(row.plan), row.amountInr, status, Some(id))
  }

  function AfterApprove(s: Store, op: Op): Store
    requires op.Approve?
  {
    if ApproveAnswer(s, op.id).Err? || s.submissions[op.id].userId >= |s.users| then s
    else
      var row := s.submissions[op.id];
      var user := s.users[row.userId];
      var active := WithPeriodEnd(WithPlan(WithStatus(user, row.product, Active), row.product, Some(row.plan)),
                                  row.product, Some(op.accessEnd));
      var approved := row.(status := Approved, reviewedBy := Some(op.adminId), reviewedAt := Some(op.now),
                           txnId := Some(|s.ledger|));
      Store(s.users[row.userId := if row.product == Website then active else active.(cancelAtPeriodEnd := false)],
            s.submissions[op.id := approved],
            s.ledger + [ManualRow(row, op.id, ManualApproved, "captured")])
  }

  /** The account after a payment that did not come through: back to the trial, or expired. */
  function FallBack(u: User, product: Product, plan: Plan, now: int): User {
    var trialStillValid := u.trialEndsAt > now;
    if product == Website then
      u.(websiteStatus := if trialStillValid then NotSubscribed else Expired, websitePlan := None,
         websitePeriodEnd := None)
    else
      u.(status := if trialStillValid then Trial else Expired, plan := if trialStillValid then None else Some(plan),
         periodEnd := None)
  }

  function Reason(raw: string): string {
    var trimmed := Trim(raw);
    var short := if |trimmed| > 500 then trimmed[..500] else trimmed;
    if short == "" then DEFAULT_REASON else short
  }

  function AfterReject(s: Store, op: Op): Store
    requires op.Reject?
  {
    if ReviewAnswer(s, op.id).Err? || s.submissions[op.id].userId >= |s.users| then s
    else
      var row := s.submissions[op.id];
      var refused := row.(status := Refused, rejectionReason := Some(Reason(op.reason)),
                          reviewedBy := Some(op.adminId), reviewedAt := Some(op.now));
      Store(s.users[row.userId := FallBack(s.users[row.userId], row.product, row.plan, op.now)],
            s.submissions[op.id := refused],
            s.ledger + [ManualRow(row, op.id, ManualRejected, "rejected")])
  }

  // ----- expiry -----

  predicate Waiting(submissions: seq<Submission>, i: nat, userId: nat, product: Product) {
    && i < |submissions| && submissions[i].userId == userId && submissions[i].product == product
    && submissions[i].status == Pending
  }

  predicate OtherPending(submissions: seq<Submission>, id: nat)
    requires id < |submissions|
  {
    var row := submissions[id];
    exists i: nat :: i < |submissions| && i != id && Waiting(submissions, i, row.userId, row.product)
  }

  /** `expireSubmission` and `expireWebsiteSubmission`. */
  function AfterExpire(s: Store, id: nat, now: int): Store {
    if ReviewAnswer(s, id).Err? || s.submissions[id].userId >= |s.users| then s
    else
      var row := s.submissions[id];
      var user := s.users[row.userId];
      var lapsed := s.submissions[id := row.(status := Lapsed)];
      if StatusOf(user, row.product) == PendingVerification && !OtherPending(s.submissions, id)
      then s.(submissions := lapsed, users := s.users[row.userId := FallBack(user, row.product, row.plan, now)])
      else s.(submissions := lapsed)
  }

  // ----- Razorpay -----

  predicate PaymentRecorded(ledger: seq<Txn>, paymentId: string) {
    exists k :: 0 <= k < |ledger| && ledger[k].paymentId == Some(paymentId)
  }

  /** A payment id that `recordTransaction` checks: not null and not empty. */
  predicate Checked(paymentId: Option<string>) { paymentId.Some? && paymentId.value != "" }

  /** `recordTransaction`: a known payment is not recorded again. */
  function Record(ledger: seq<Txn>, txn: Txn): seq<Txn> {
    if Checked(txn.paymentId) && PaymentRecorded(ledger, txn.paymentId.value) then ledger else ledger + [txn]
  }

  function EventPlan(u: User, note: Option<Plan>): Plan {
    if note.Some? then note.value else if u.plan.Some? then u.plan.value else Monthly
  }

  function ApplyEvent(u: User, op: Op): User
    requires op.Subscription?
  {
    match op.kind
    case Renewing =>
      u.(subscriptionId := Some(op.subscriptionId), status := Active, plan := Some(EventPlan(u, op.planNote)),
         periodEnd := Some(op.accessEnd), cancelAtPeriodEnd := false)
    case Failing => u.(status := PastDue)
    case Ending => u.(status := Cancelled, cancelAtPeriodEnd := false)
    case OtherEvent => u
  }

  function AfterSubscription(s: Store, op: Op): Store
    requires op.Subscription?
  {
    if op.userId >= |s.users| then s
    else
      var user := ApplyEvent(s.users[op.userId], op);
      var s' := s.(users := s.users[op.userId := user]);
      if op.charge.None? then s'
      else
        var charge := op.charge.value;
        s'.(ledger := Record(s.ledger, Txn(op.userId, Platform, SubscriptionCharged, charge.paymentId,
                                           Some(op.subscriptionId), Some(EventPlan(user, op.planNote)),
                                           charge.amountInr, charge.status, None)))
  }

  /** A foreign subscription is refused; so is an unknown user. */
  predicate CheckoutAccepted(s: Store, op: Op)
    requires op.Checkout?
  {
    && op.userId < |s.users|
    && (s.users[op.userId].subscriptionId in {None, Some(""), Some(op.subscriptionId)})
  }

  function AfterCheckout(s: Store, op: Op): Store
    requires op.Checkout?
  {
    if !CheckoutAccepted(s, op) then s
    else
      var user := s.users[op.userId];
      var plan := EventPlan(user, None);
      var active := user.(subscriptionId := Some(op.subscriptionId), status := Active, plan := Some(plan),
                          periodEnd := Some(op.accessEnd));
      s.(users := s.users[op.userId := active],
         ledger := Record(s.ledger, Txn(op.userId, Platform, CheckoutActivated, Some(op.paymentId),
                                        Some(op.subscriptionId), Some(plan), op.amountInr, op.status, None)))
  }

  function After(c: Config, s: Store, op: Op): Store {
    match op
    case Submit(_, _, _, _, _, _) => AfterSubmit(c, s, op)
    case Approve(_, _, _, _) => AfterApprove(s, op)
    case Reject(_, _, _, _) => AfterReject(s, op)
    case Expire(id, now) => AfterExpire(s, id, now)
    case Subscription(_, _, _, _, _, _) => AfterSubscription(s, op)
    case Checkout(_, _, _, _, _, _) => AfterCheckout(s, op)
    case Remind(now, windowDays, delivered) =>
      if c.billingEnabled then s.(users := Lifecycle.RemindAll(s.users, now, windowDays, i => i in delivered)) else s
  }

  function Run(c: Config, s: Store, ops: seq<Op>): Store
    decreases ops
  {
    if ops == [] then s else Run(c, After(c, s, ops[0]), ops[1..])
  }

  // ----- invariants -----

  predicate SamePayment(a: Submission, b: Submission) {
    a.product == b.product && a.utr == b.utr && Live(a.status) && Live(b.status)
  }

  /** No product has two live submissions with the same UTR. */
  ghost predicate UtrsUnique(submissions: seq<Submission>) {
    forall i, j | 0 <= i < j < |submissions| :: !SamePayment(submissions[i], submissions[j])
  }

  ghost predicate HasWaiting(submissions: seq<Submission>, userId: nat, product: Product) {
    exists i: nat :: Waiting(submissions, i, userId, product)
  }

  /** A user under review has a submission to review. */
  ghost predicate ReviewsAreReal(s: Store) {
    forall u: nat, product | u < |s.users| && StatusOf(s.users[u], product) == PendingVerification ::
      HasWaiting(s.submissions, u, product)
  }

  /** The ledger rows of approved payments and the approved submissions point at each other. */
  ghost predicate LedgerMatches(s: Store) {
    && (forall i | 0 <= i < |s.submissions| ::
          (s.submissions[i].status == Approved <==> s.submissions[i].txnId.Some?))
    && (forall i | 0 <= i < |s.submissions| && s.submissions[i].txnId.Some? ::
          && s.submissions[i].txnId.value < |s.ledger|
          && s.ledger[s.submissions[i].txnId.value] == ManualRow(s.submissions[i], i, ManualApproved, "captured"))
    && (forall k | 0 <= k < |s.ledger| && s.ledger[k].event == ManualApproved ::
          && s.ledger[k].submissionId.Some? && s.ledger[k].submissionId.value < |s.submissions|
          && s.submissions[s.ledger[k].submissionId.value].txnId == Some(k))
  }

  ghost predicate PaymentIdsUnique(ledger: seq<Txn>) {
    forall j, k | 0 <= j < k < |ledger| && Checked(ledger[j].paymentId) :: ledger[j].paymentId != ledger[k].paymentId
  }

  ghost predicate BillingInv(s: Store) {
    && (forall i | 0 <= i < |s.submissions| :: s.submissions[i].userId < |s.users|)
    && UtrsUnique(s.submissions) && ReviewsAreReal(s) && LedgerMatches(s) && PaymentIdsUnique(s.ledger)
  }

  lemma EmptyStoreIsGood(users: seq<User>)
    requires forall u | 0 <= u < |users| ::
      users[u].status != PendingVerification && users[u].websiteStatus != PendingVerification
    ensures BillingInv(Store(users, [], []))
  {
  }

  /** Approval never meets a UTR that is already approved: the conflict branch is dead. */
  lemma ApproveNeverConflicts(s: Store, id: nat)
    requires BillingInv(s)
    ensures ApproveAnswer(s, id) == ReviewAnswer(s, id)
  {
    if id < |s.submissions| && s.submissions[id].status == Pending && ApprovedElsewhere(s.submissions, id) {
      var i :| 0 <= i < |s.submissions| && i != id && s.submissions[i].product == s.submissions[id].product
        && s.submissions[i].utr == s.submissions[id].utr && s.submissions[i].status == Approved;
      assert SamePayment(s.submissions[if i < id then i else id], s.submissions[if i < id then id else i]);
    }
  }

  // ----- what each kind of change keeps -----

  /** A change of users that puts nobody new under review. */
  lemma UsersChange(s: Store, s': Store)
    requires BillingInv(s) && s'.submissions == s.submissions && s'.ledger == s.ledger && |s'.users| == |s.users|
    requires forall u, product | 0 <= u < |s.users| && StatusOf(s'.users[u], product) == PendingVerification ::
      StatusOf(s.users[u], product) == PendingVerification
    ensures BillingInv(s')
  {
  }

  /** One more ledger row that is no approval. */
  lemma LedgerGrows(s: Store, txn: Txn)
    requires BillingInv(s) && txn.event != ManualApproved
    ensures BillingInv(s.(ledger := Record(s.ledger, txn)))
  {
  }

  lemma SubmitKeeps(c: Config, s: Store, op: Op)
    requires BillingInv(s) && op.Submit?
    ensures BillingInv(AfterSubmit(c, s, op))
  {
    var s' := AfterSubmit(c, s, op);
    if SubmitAnswer(c, s, op).Ok? {
      var id := |s.submissions|;
      assert Waiting(s'.submissions, id, op.userId, op.product);
      forall u: nat, product | u < |s'.users| && StatusOf(s'.users[u], product) == PendingVerification
        ensures HasWaiting(s'.submissions, u, product)
      {
        if !(u == op.userId && product == op.product) {
          assert StatusOf(s.users[u], product) == PendingVerification;
          assert HasWaiting(s.submissions, u, product);
          var i: nat :| Waiting(s.submissions, i, u, product);
          assert Waiting(s'.submissions, i, u, product);
        }
      }
    }
  }

  /** A pending submission is decided: its row changes, its user is no longer under review (or another
      submission is), everyone else is as before. */
  lemma DecisionKeepsReviews(s: Store, s': Store, id: nat)
    requires ReviewsAreReal(s) && id < |s.submissions| == |s'.submissions| && |s.users| == |s'.users|
    requires forall i | 0 <= i < |s.submissions| && i != id :: s'.submissions[i] == s.submissions[i]
    requires forall u: nat, product | u < |s.users| && StatusOf(s'.users[u], product) == PendingVerification ::
      && StatusOf(s.users[u], product) == PendingVerification
      && (Waiting(s.submissions, id, u, product) ==> OtherPending(s.submissions, id))
    ensures ReviewsAreReal(s')
  {
    forall u: nat, product | u < |s'.users| && StatusOf(s'.users[u], product) == PendingVerification
      ensures HasWaiting(s'.submissions, u, product)
    {
      var i: nat :| Waiting(s.submissions, i, u, product);
      if i == id {
        i :| i < |s.submissions| && i != id && Waiting(s.submissions, i, u, product);
      }
      assert Waiting(s'.submissions, i, u, product);
    }
  }

  lemma ApproveKeeps(s: Store, op: Op)
    requires BillingInv(s) && op.Approve?
    ensures BillingInv(AfterApprove(s, op))
  {
    var s' := AfterApprove(s, op);
    if ApproveAnswer(s, op.id).Ok? {
      DecisionKeepsReviews(s, s', op.id);
      forall i, j | 0 <= i < j < |s'.submissions| ensures !SamePayment(s'.submissions[i], s'.submissions[j]) {
        assert !SamePayment(s.submissions[i], s.submissions[j]);
      }
    }
  }

  lemma RejectKeeps(s: Store, op: Op)
    requires BillingInv(s) && op.Reject?
    ensures BillingInv(AfterReject(s, op))
  {
    var s' := AfterReject(s, op);
    if ReviewAnswer(s, op.id).Ok? {
      DecisionKeepsReviews(s, s', op.id);
      forall i, j | 0 <= i < j < |s'.submissions| ensures !SamePayment(s'.submissions[i], s'.submissions[j]) {
        assert !SamePayment(s.submissions[i], s.submissions[j]);
      }
    }
  }

  lemma ExpireKeeps(s: Store, id: nat, now: int)
    requires BillingInv(s)
    ensures BillingInv(AfterExpire(s, id, now))
  {
    var s' := AfterExpire(s, id, now);
    if ReviewAnswer(s, id).Ok? {
      DecisionKeepsReviews(s, s', id);
      forall i, j | 0 <= i < j < |s'.submissions| ensures !SamePayment(s'.submissions[i], s'.submissions[j]) {
        assert !SamePayment(s.submissions[i], s.submissions[j]);
      }
    }
  }

  lemma AfterKeeps(c: Config, s: Store, op: Op)
    requires BillingInv(s)
    ensures BillingInv(After(c, s, op))
  {
    match op
    case Submit(_, _, _, _, _, _) => SubmitKeeps(c, s, op);
    case Approve(_, _, _, _) => ApproveKeeps(s, op);
    case Reject(_, _, _, _) => RejectKeeps(s, op);
    case Expire(id, now) => ExpireKeeps(s, id, now);
    case Subscription(_, _, _, _, _, _) =>
      if op.userId < |s.users| {
        var s1 := s.(users := s.users[op.userId := ApplyEvent(s.users[op.userId], op)]);
        UsersChange(s, s1);
        if op.charge.Some? {
          var charge := op.charge.value;
          var plan := EventPlan(s1.users[op.userId], op.planNote);
          LedgerGrows(s1, Txn(op.userId, Platform, SubscriptionCharged, charge.paymentId, Some(op.subscriptionId),
                              Some(plan), charge.amountInr, charge.status, None));
        }
      }
    case Checkout(_, _, _, _, _, _) =>
      if CheckoutAccepted(s, op) {
        var s1 := s.(users := After(c, s, op).users);
        UsersChange(s, s1);
        LedgerGrows(s1, Txn(op.userId, Platform, CheckoutActivated, Some(op.paymentId), Some(op.subscriptionId),
                            Some(EventPlan(s.users[op.userId], None)), op.amountInr, op.status, None));
      }
    case Remind(now, windowDays, delivered) => UsersChange(s, After(c, s, op));
  }

  /** Every run of submissions, reviews, expiries, Razorpay events and daily jobs keeps all of it. */
  lemma {:induction false} RunKeeps(c: Config, s: Store, ops: seq<Op>)
    requires BillingInv(s)
    ensures BillingInv(Run(c, s, ops))
    decreases ops
  {
    if ops != [] {
      AfterKeeps(c, s, ops[0]);
      RunKeeps(c, After(c, s, ops[0]), ops[1..]);
    }
  }

  /** A decided submission is never touched again, and no row is ever removed. */
  lemma {:induction false} DecisionsAreFinal(c: Config, s: Store, ops: seq<Op>, i: nat)
    requires i < |s.submissions|
    ensures i < |Run(c, s, ops).submissions|
    ensures s.submissions[i].status != Pending ==> Run(c, s, ops).submissions[i] == s.submissions[i]
    decreases ops
  {
    if ops != [] { DecisionsAreFinal(c, After(c, s, ops[0]), ops[1..], i); }
  }

  // ----- runs without Razorpay -----

  predicate Manual(op: Op) { !op.Subscription? && !op.Checkout? }

  /** Under review means exactly one pending submission, not under review means none. */
  ghost predicate ReviewsExact(s: Store) {
    && (forall u: nat, product | u < |s.users| ::
          HasWaiting(s.submissions, u, product) <==> StatusOf(s.users[u], product) == PendingVerification)
    && (forall i, j | 0 <= i < j < |s.submissions| :: !BothWait(s.submissions[i], s.submissions[j]))
  }

  predicate BothWait(a: Submission, b: Submission) {
    a.userId == b.userId && a.product == b.product && a.status == Pending && b.status == Pending
  }

  lemma ManualKeepsExact(c: Config, s: Store, op: Op)
    requires BillingInv(s) && ReviewsExact(s) && Manual(op)
    ensures ReviewsExact(After(c, s, op))
  {
    var s' := After(c, s, op);
    if op.Remind? {
      RemindKeepsExact(c, s, op);
    } else if op.Submit? {
      if SubmitAnswer(c, s, op).Ok? { SubmitKeepsExact(c, s, op); }
    } else if ReviewAnswer(s, op.id).Ok? {
      ApproveNeverConflicts(s, op.id);
      DecisionKeepsExact(s, s', op.id);
    }
  }

  lemma RemindKeepsExact(c: Config, s: Store, op: Op)
    requires ReviewsExact(s) && op.Remind?
    ensures ReviewsExact(After(c, s, op))
  {
    var s' := After(c, s, op);
    forall u: nat, product | u < |s.users|
      ensures StatusOf(s'.users[u], product) == PendingVerification
          <==> StatusOf(s.users[u], product) == PendingVerification
    {
    }
  }

  lemma SubmitKeepsExact(c: Config, s: Store, op: Op)
    requires BillingInv(s) && ReviewsExact(s) && op.Submit? && SubmitAnswer(c, s, op).Ok?
    ensures ReviewsExact(AfterSubmit(c, s, op))
  {
    var s' := AfterSubmit(c, s, op);
    var id := |s.submissions|;
    assert StatusOf(s.users[op.userId], op.product) != PendingVerification;
    assert !HasWaiting(s.submissions, op.userId, op.product);
    forall u: nat, product | u < |s'.users|
      ensures HasWaiting(s'.submissions, u, product) <==> StatusOf(s'.users[u], product) == PendingVerification
    {
      if u == op.userId && product == op.product {
        assert Waiting(s'.submissions, id, u, product);
      } else {
        if HasWaiting(s'.submissions, u, product) {
          var i: nat :| Waiting(s'.submissions, i, u, product);
          assert Waiting(s.submissions, i, u, product);
        }
        if HasWaiting(s.submissions, u, product) {
          var i: nat :| Waiting(s.submissions, i, u, product);
          assert Waiting(s'.submissions, i, u, product);
        }
      }
    }
    forall i, j | 0 <= i < j < |s'.submissions| ensures !BothWait(s'.submissions[i], s'.submissions[j]) {
      if j == id {
        assert !Waiting(s.submissions, i, op.userId, op.product);
      } else {
        assert !BothWait(s.submissions[i], s.submissions[j]);
      }
    }
  }

  lemma DecisionKeepsExact(s: Store, s': Store, id: nat)
    requires ReviewsExact(s) && id < |s.submissions| == |s'.submissions| && |s.users| == |s'.users|
    requires s.submissions[id].status == Pending && s'.submissions[id].status != Pending
    requires forall i | 0 <= i < |s.submissions| && i != id :: s'.submissions[i] == s.submissions[i]
    requires forall u: nat, product | u < |s.users| ::
      StatusOf(s'.users[u], product) == PendingVerification <==>
        && StatusOf(s.users[u], product) == PendingVerification
        && (Waiting(s.submissions, id, u, product) ==> OtherPending(s.submissions, id))
    ensures ReviewsExact(s')
  {
    forall i, j | 0 <= i < j < |s'.submissions| ensures !BothWait(s'.submissions[i], s'.submissions[j]) {
      assert !BothWait(s.submissions[i], s.submissions[j]);
    }
    OnlyOneWaits(s, id);
    forall u: nat, product | u < |s'.users|
      ensures HasWaiting(s'.submissions, u, product) <==> StatusOf(s'.users[u], product) == PendingVerification
    {
      if HasWaiting(s'.submissions, u, product) {
        var i: nat :| Waiting(s'.submissions, i, u, product);
        assert Waiting(s.submissions, i, u, product);
        assert !BothWait(s.submissions[if i < id then i else id], s.submissions[if i < id then id else i]);
      }
      if StatusOf(s'.users[u], product) == PendingVerification {
        var i: nat :| Waiting(s.submissions, i, u, product);
        assert i != id;
        assert Waiting(s'.submissions, i, u, product);
      }
    }
  }

  lemma OnlyOneWaits(s: Store, id: nat)
    requires ReviewsExact(s) && id < |s.submissions| && s.submissions[id].status == Pending
    ensures !OtherPending(s.submissions, id)
  {
    if OtherPending(s.submissions, id) {
      var i: nat :| i < |s.submissions| && i != id
        && Waiting(s.submissions, i, s.submissions[id].userId, s.submissions[id].product);
      assert BothWait(s.submissions[if i < id then i else id], s.submissions[if i < id then id else i]);
    }
  }

  /** As long as Razorpay stays out, a user is under review exactly while one submission waits. */
  lemma {:induction false} ManualRunKeepsExact(c: Config, s: Store, ops: seq<Op>)
    requires BillingInv(s) && ReviewsExact(s) && forall k | 0 <= k < |ops| :: Manual(ops[k])
    ensures ReviewsExact(Run(c, s, ops))
    decreases ops
  {
    if ops != [] {
      ManualKeepsExact(c, s, ops[0]);
      AfterKeeps(c, s, ops[0]);
      ManualRunKeepsExact(c, After(c, s, ops[0]), ops[1..]);
    }
  }

  // ----- amounts -----

  function ApprovedAmount(submissions: seq<Submission>, userId: nat, product: Product): nat {
    if submissions == [] then 0
    else
      var last := submissions[|submissions| - 1];
      ApprovedAmount(submissions[..|submissions| - 1], userId, product)
      + (if last.userId == userId && last.product == product && last.status == Approved then last.amountInr else 0)
  }

  function CapturedAmount(ledger: seq<Txn>, userId: nat, product: Product): nat {
    if ledger == [] then 0
    else
      CapturedAmount(ledger[..|ledger| - 1], userId, product) + ManualAmount(ledger[|ledger| - 1], userId, product)
  }

  lemma {:induction false} ApprovedAmountUpdate(
    submissions: seq<Submission>, i: nat, row: Submission, userId: nat, product: Product)
    requires i < |submissions| && submissions[i].status != Approved
    requires row.userId == submissions[i].userId && row.product == submissions[i].product
    ensures ApprovedAmount(submissions[i := row], userId, product) == ApprovedAmount(submissions, userId, product)
      + (if row.userId == userId && row.product == product && row.status == Approved then row.amountInr else 0)
  {
    var n := |submissions| - 1;
    if i == n {
      assert submissions[i := row][..n] == submissions[..n];
    } else {
      assert submissions[i := row][..n] == submissions[..n][i := row];
      ApprovedAmountUpdate(submissions[..n], i, row, userId, product);
    }
  }

  ghost predicate AmountsMatch(s: Store) {
    forall u, product :: ApprovedAmount(s.submissions, u, product) == CapturedAmount(s.ledger, u, product)
  }

  function ManualAmount(txn: Txn, userId: nat, product: Product): nat {
    if txn.userId == userId && txn.product == product && txn.event == ManualApproved && txn.status == "captured"
    then txn.amountInr else 0
  }

  lemma CapturedAppend(ledger: seq<Txn>, txn: Txn, userId: nat, product: Product)
    ensures CapturedAmount(ledger + [txn], userId, product)
         == CapturedAmount(ledger, userId, product) + ManualAmount(txn, userId, product)
    ensures txn.event != ManualApproved
        ==> CapturedAmount(Record(ledger, txn), userId, product) == CapturedAmount(ledger, userId, product)
  {
    assert (ledger + [txn])[..|ledger|] == ledger;
  }

  /** Neither Razorpay nor a daily job nor an expiry changes the captured amounts. */
  lemma LedgerOfOtherCalls(c: Config, s: Store, op: Op, userId: nat, product: Product)
    requires !op.Approve? && !op.Reject?
    ensures CapturedAmount(After(c, s, op).ledger, userId, product) == CapturedAmount(s.ledger, userId, product)
  {
    if op.Subscription? && op.userId < |s.users| && op.charge.Some? {
      var user := ApplyEvent(s.users[op.userId], op);
      CapturedAppend(s.ledger, Txn(op.userId, Platform, SubscriptionCharged, op.charge.value.paymentId,
                                   Some(op.subscriptionId), Some(EventPlan(user, op.planNote)),
                                   op.charge.value.amountInr, op.charge.value.status, None), userId, product);
    } else if op.Checkout? && CheckoutAccepted(s, op) {
      CapturedAppend(s.ledger, Txn(op.userId, Platform, CheckoutActivated, Some(op.paymentId), Some(op.subscriptionId),
                                   Some(EventPlan(s.users[op.userId], None)), op.amountInr, op.status, None),
                     userId, product);
    }
  }

  lemma ReviewAmounts(s: Store, op: Op, userId: nat, product: Product)
    requires BillingInv(s) && (op.Approve? || op.Reject?)
    ensures var s' := if op.Approve? then AfterApprove(s, op) else AfterReject(s, op);
      CapturedAmount(s'.ledger, userId, product) - CapturedAmount(s.ledger, userId, product)
        == ApprovedAmount(s'.submissions, userId, product) - ApprovedAmount(s.submissions, userId, product)
  {
    if ReviewAnswer(s, op.id).Ok? {
      var s' := if op.Approve? then AfterApprove(s, op) else AfterReject(s, op);
      var row := s.submissions[op.id];
      var txn := if op.Approve? then ManualRow(row, op.id, ManualApproved, "captured")
                 else ManualRow(row, op.id, ManualRejected, "rejected");
      ApproveNeverConflicts(s, op.id);
      CapturedAppend(s.ledger, txn, userId, product);
      ApprovedAmountUpdate(s.submissions, op.id, s'.submissions[op.id], userId, product);
    }
  }

  lemma ApprovedByOtherCalls(c: Config, s: Store, op: Op, userId: nat, product: Product)
    requires !op.Approve? && !op.Reject?
    ensures ApprovedAmount(After(c, s, op).submissions, userId, product)
         == ApprovedAmount(s.submissions, userId, product)
  {
    var after := After(c, s, op).submissions;
    if op.Submit? {
      if after != s.submissions { assert after[..|s.submissions|] == s.submissions; }
    } else if op.Expire? {
      if ReviewAnswer(s, op.id).Ok? && s.submissions[op.id].userId < |s.users| {
        ApprovedAmountUpdate(s.submissions, op.id, s.submissions[op.id].(status := Lapsed), userId, product);
      }
    }
  }

  lemma AfterKeepsAmounts(c: Config, s: Store, op: Op)
    requires BillingInv(s) && AmountsMatch(s)
    ensures AmountsMatch(After(c, s, op))
  {
    var s' := After(c, s, op);
    forall u, product ensures ApprovedAmount(s'.submissions, u, product) == CapturedAmount(s'.ledger, u, product) {
      assert ApprovedAmount(s.submissions, u, product) == CapturedAmount(s.ledger, u, product);
      if op.Approve? || op.Reject? {
        ReviewAmounts(s, op, u, product);
      } else {
        LedgerOfOtherCalls(c, s, op, u, product);
        ApprovedByOtherCalls(c, s, op, u, product);
      }
    }
  }

  /** For every user and product, what the ledger captured by hand is what was approved. */
  lemma {:induction false} RunKeepsAmounts(c: Config, s: Store, ops: seq<Op>)
    requires BillingInv(s) && AmountsMatch(s)
    ensures AmountsMatch(Run(c, s, ops))
    decreases ops
  {
    if ops != [] {
      AfterKeepsAmounts(c, s, ops[0]);
      AfterKeeps(c, s, ops[0]);
      RunKeepsAmounts(c, After(c, s, ops[0]), ops[1..]);
    }
  }

  // ----- one payment, told twice -----

  function RowsWith(ledger: seq<Txn>, paymentId: string): nat {
    if ledger == [] then 0
    else
      RowsWith(ledger[..|ledger| - 1], paymentId)
      + (if ledger[|ledger| - 1].paymentId == Some(paymentId) then 1 else 0)
  }

  lemma {:induction false} UniqueRow(ledger: seq<Txn>, paymentId: string)
    requires PaymentIdsUnique(ledger) && paymentId != ""
    ensures RowsWith(ledger, paymentId) == if PaymentRecorded(ledger, paymentId) then 1 else 0
  {
    if ledger != [] {
      var n := |ledger| - 1;
      assert forall j | 0 <= j < n :: ledger[..n][j] == ledger[j];
      UniqueRow(ledger[..n], paymentId);
      if ledger[n].paymentId == Some(paymentId) {
        assert PaymentRecorded(ledger, paymentId);
        assert !PaymentRecorded(ledger[..n], paymentId);
      } else if PaymentRecorded(ledger, paymentId) {
        var k :| 0 <= k < |ledger| && ledger[k].paymentId == Some(paymentId);
        assert ledger[..n][k].paymentId == Some(paymentId);
      }
    }
  }

  /** A call that tells of a payment: an accepted checkout, or a charge event of a known user. */
  predicate Tells(s: Store, op: Op, paymentId: string) {
    || (op.Checkout? && op.paymentId == paymentId && CheckoutAccepted(s, op))
    || (op.Subscription? && op.userId < |s.users| && op.charge.Some? && op.charge.value.paymentId == Some(paymentId))
  }

  /** Checkout activation and the charge webhook of one payment, in either order and any number of times with
      anything in between, leave one ledger row for it. */
  lemma PaymentRecordedOnce(c: Config, s: Store, ops: seq<Op>, paymentId: string)
    requires BillingInv(s) && paymentId != ""
    ensures RowsWith(Run(c, s, ops).ledger, paymentId) <= 1
    ensures forall k | 0 <= k < |ops| && Tells(Run(c, s, ops[..k]), ops[k], paymentId) ::
      RowsWith(Run(c, s, ops).ledger, paymentId) == 1
  {
    RunKeeps(c, s, ops);
    UniqueRow(Run(c, s, ops).ledger, paymentId);
    forall k | 0 <= k < |ops| && Tells(Run(c, s, ops[..k]), ops[k], paymentId)
      ensures RowsWith(Run(c, s, ops).ledger, paymentId) == 1
    {
      var before := Run(c, s, ops[..k]);
      var after := After(c, before, ops[k]);
      RecordedNow(c, before, ops[k], paymentId);
      assert ops == ops[..k] + ([ops[k]] + ops[k + 1..]);
      RunAppend(c, s, ops[..k], [ops[k]] + ops[k + 1..]);
      assert ([ops[k]] + ops[k + 1..])[1..] == ops[k + 1..];
      StaysRecorded(c, after, ops[k + 1..], paymentId);
    }
  }

  lemma RecordedNow(c: Config, s: Store, op: Op, paymentId: string)
    requires Tells(s, op, paymentId) && paymentId != ""
    ensures PaymentRecorded(After(c, s, op).ledger, paymentId)
  {
    var ledger := After(c, s, op).ledger;
    if !PaymentRecorded(s.ledger, paymentId) {
      assert ledger[|s.ledger|].paymentId == Some(paymentId);
    }
  }

  lemma {:induction false} RunAppend(c: Config, s: Store, xs: seq<Op>, ys: seq<Op>)
    ensures Run(c, s, xs + ys) == Run(c, Run(c, s, xs), ys)
    decreases xs
  {
    if xs == [] {
      assert xs + ys == ys;
    } else {
      assert (xs + ys)[0] == xs[0] && (xs + ys)[1..] == xs[1..] + ys;
      RunAppend(c, After(c, s, xs[0]), xs[1..], ys);
    }
  }

  lemma {:induction false} StaysRecorded(c: Config, s: Store, ops: seq<Op>, paymentId: string)
    requires PaymentRecorded(s.ledger, paymentId)
    ensures PaymentRecorded(Run(c, s, ops).ledger, paymentId)
    decreases ops
  {
    if ops != [] {
      var k :| 0 <= k < |s.ledger| && s.ledger[k].paymentId == Some(paymentId);
      assert After(c, s, ops[0]).ledger[k].paymentId == Some(paymentId);
      StaysRecorded(c, After(c, s, ops[0]), ops[1..], paymentId);
    }
  }
}
