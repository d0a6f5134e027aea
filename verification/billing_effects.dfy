/**
 * What each billing call gives its user or takes away, read off the status endpoints at every later instant, for the
 * platform and for the website.
 */
module BillingEffects {
  import opened Wrappers
  import opened Text
  import opened BillingAccess
  import opened Billing
  import Lifecycle

  /** The status endpoint of a product. */
  function ViewOf(c: Config, u: User, product: Product, now: int): View {
    if product == Website then ResolveWebsiteStatus(c, u, now) else ResolveStatus(c, u, now)
  }

  /** Billing applies to this user and product; elsewhere everything is free. */
  predicate Billed(c: Config, u: User, product: Product) {
    !u.isSuperAdmin && c.billingEnabled && (product == Website ==> c.websiteFlag)
  }

  function OtherProduct(product: Product): Product { if product == Website then Platform else Website }

  lemma FreeWhereNotBilled(c: Config, u: User, product: Product, now: int)
    requires !Billed(c, u, product)
    ensures ViewOf(c, u, product, now).hasAccess && ViewOf(c, u, product, now).status == Active
  {
  }

  // ----- what a user can have at the instant `t` -----

  /** Paid until `end`: the subscription shows as active with its plan up to that instant, and after it there is access
      only as long as the trial runs. */
  predicate PaidUntil(c: Config, u: User, product: Product, plan: Plan, end: int, t: int) {
    var v := ViewOf(c, u, product, t);
    && (t < end ==> v.hasAccess && v.status == Active && v.plan == Some(plan) && v.periodEnd == Some(end))
    && (t >= end ==> v.hasAccess == (u.trialEndsAt > t) && v.status == if u.trialEndsAt > t then Trial else Expired)
  }

  /** Nothing but the trial since `now`: no plan, no period, access exactly while the trial runs. */
  predicate TrialOnly(c: Config, u: User, product: Product, now: int, t: int) {
    var v := ViewOf(c, u, product, t);
    && v.hasAccess == (u.trialEndsAt > t) && v.plan.None? && v.periodEnd.None?
    && v.status == (if u.trialEndsAt > t then Trial
                    else if product == Website && u.trialEndsAt > now then NotSubscribed else Expired)
  }

  /** The record is that of the trial, if it runs at `now`, or of an expired account. */
  predicate BackToTrial(u: User, product: Product, plan: Plan, now: int) {
    var trial := u.trialEndsAt > now;
    && PeriodEndOf(u, product).None?
    && (trial ==> StatusOf(u, product) == (if product == Website then NotSubscribed else Trial))
    && (!trial ==> StatusOf(u, product) == Expired)
    && (if product == Website then u.websitePlan.None? else u.plan == if trial then None else Some(plan))
  }

  /** A platform subscription that shows `status` and runs out with its period, trial or not. */
  predicate RunsOut(c: Config, u: User, status: Status, end: Option<int>, t: int) {
    var v := ResolveStatus(c, u, t);
    v.status == status && v.periodEnd == end && v.hasAccess == (end.Some? && t < end.value)
  }

  /** Both products look to both users the same at `t`. */
  predicate SameView(c: Config, a: User, b: User, product: Product, t: int) {
    ViewOf(c, a, product, t) == ViewOf(c, b, product, t)
  }

  /** Users other than `u` are as they were. */
  ghost predicate OnlyUser(s: Store, next: Store, u: nat) {
    |s.users| == |next.users| && forall v | 0 <= v < |s.users| && v != u :: s.users[v] == next.users[v]
  }

  /** Submissions other than `id` are as they were, and `id` is the same payment. */
  ghost predicate OnlySubmission(s: Store, next: Store, id: nat) {
    && id < |s.submissions| == |next.submissions|
    && (forall i | 0 <= i < |s.submissions| && i != id :: s.submissions[i] == next.submissions[i])
    && var a, b := s.submissions[id], next.submissions[id];
       && a.userId == b.userId && a.product == b.product && a.plan == b.plan && a.amountInr == b.amountInr
       && a.utr == b.utr && a.createdAt == b.createdAt
  }

  // ----- review -----

  /** A submission waits for review. */
  predicate InReview(s: Store, id: nat) { id < |s.submissions| && s.submissions[id].status == Pending }

  /** Approval of a waiting submission: its user has the plan that was paid for until `accessEnd`, at every instant, the
      other product looks as before, and nobody else is touched. */
  lemma ApprovalGives(c: Config, s: Store, op: Op, t: int)
    requires BillingInv(s) && op.Approve? && InReview(s, op.id)
    ensures
      var next, row := After(c, s, op), s.submissions[op.id];
      && row.userId < |s.users| && OnlyUser(s, next, row.userId) && OnlySubmission(s, next, op.id)
      && next.submissions[op.id].status == Approved && next.submissions[op.id].reviewedBy == Some(op.adminId)
      && (Billed(c, s.users[row.userId], row.product) ==>
            PaidUntil(c, next.users[row.userId], row.product, row.plan, op.accessEnd, t))
      && next.users[row.userId].trialEndsAt == s.users[row.userId].trialEndsAt
      && SameView(c, s.users[row.userId], next.users[row.userId], OtherProduct(row.product), t)
  {
    ApproveNeverConflicts(s, op.id);
  }

  /** Rejection of a waiting submission leaves its user the trial, whatever had been paid for before. */
  lemma RejectionLeaves(c: Config, s: Store, op: Op, t: int)
    requires BillingInv(s) && op.Reject? && InReview(s, op.id) && op.now <= t
    ensures
      var next, row := After(c, s, op), s.submissions[op.id];
      && row.userId < |s.users| && OnlyUser(s, next, row.userId) && OnlySubmission(s, next, op.id)
      && next.submissions[op.id].status == Refused && next.submissions[op.id].reviewedBy == Some(op.adminId)
      && (Billed(c, s.users[row.userId], row.product) ==> TrialOnly(c, next.users[row.userId], row.product, op.now, t))
      && BackToTrial(next.users[row.userId], row.product, row.plan, op.now)
      && next.users[row.userId].trialEndsAt == s.users[row.userId].trialEndsAt
      && SameView(c, s.users[row.userId], next.users[row.userId], OtherProduct(row.product), t)
  {
  }

  /** No other submission of the same user for the same product waits. */
  ghost predicate OnlyOneWaiting(s: Store, id: nat)
    requires id < |s.submissions|
  {
    forall i | 0 <= i < |s.submissions| && i != id && s.submissions[i].status == Pending ::
      s.submissions[i].userId != s.submissions[id].userId || s.submissions[i].product != s.submissions[id].product
  }

  lemma OnlyOneWaitingIff(s: Store, id: nat)
    requires id < |s.submissions|
    ensures OnlyOneWaiting(s, id) <==> !OtherPending(s.submissions, id)
  {
    var row := s.submissions[id];
    if !OnlyOneWaiting(s, id) {
      var i: nat :| i < |s.submissions| && i != id && s.submissions[i].status == Pending
        && s.submissions[i].userId == row.userId && s.submissions[i].product == row.product;
      assert Waiting(s.submissions, i, row.userId, row.product);
    }
  }

  /** Expiry of a waiting submission does the same to a user under review with nothing else pending, and nothing to any
      other. */
  lemma ExpiryLeaves(c: Config, s: Store, op: Op, t: int)
    requires BillingInv(s) && op.Expire? && InReview(s, op.id) && op.now <= t
    ensures
      var next, row := After(c, s, op), s.submissions[op.id];
      && row.userId < |s.users| && OnlyUser(s, next, row.userId) && OnlySubmission(s, next, op.id)
      && next.submissions[op.id].status == Lapsed && next.ledger == s.ledger
      && next.users[row.userId].trialEndsAt == s.users[row.userId].trialEndsAt
      && SameView(c, s.users[row.userId], next.users[row.userId], OtherProduct(row.product), t)
      && (if StatusOf(s.users[row.userId], row.product) == PendingVerification && OnlyOneWaiting(s, op.id)
          then
            && BackToTrial(next.users[row.userId], row.product, row.plan, op.now)
            && (Billed(c, s.users[row.userId], row.product) ==>
                  TrialOnly(c, next.users[row.userId], row.product, op.now, t))
          else next.users == s.users)
  {
    OnlyOneWaitingIff(s, op.id);
  }

  /** A review or an expiry of anything else changes nothing. */
  lemma NotInReview(c: Config, s: Store, op: Op)
    requires (op.Approve? || op.Reject? || op.Expire?) && !InReview(s, op.id)
    ensures After(c, s, op) == s
  {
  }

  // ----- submit -----

  /** The end of the product's paid period. */
  function PeriodEndOf(u: User, product: Product): Option<int> {
    if product == Website then u.websitePeriodEnd else u.periodEnd
  }

  /** A payment can be submitted exactly by a billed user who is not under review and has no active paid period, with a
      proof of at most five megabytes and a UTR of 8 to 64 letters and digits that is in no live submission. */
  lemma SubmitOkIff(c: Config, s: Store, op: Op)
    requires op.Submit?
    ensures SubmitAnswer(c, s, op).Ok? <==>
      (&& op.userId < |s.users| && Billed(c, s.users[op.userId], op.product) && c.upiManualEnabled
       && StatusOf(s.users[op.userId], op.product) != PendingVerification
       && !(StatusOf(s.users[op.userId], op.product) == Active
            && Ahead(PeriodEndOf(s.users[op.userId], op.product), op.now))
       && 1 <= op.proofBytes <= 5242880
       && var utr := NormalizeUtr(op.rawUtr);
          && 8 <= |utr| <= 64 && (forall ch | ch in utr :: IsAlphanumeric(ch))
          && forall i | 0 <= i < |s.submissions| && s.submissions[i].status in {Pending, Approved} ::
               s.submissions[i].product != op.product || s.submissions[i].utr != utr)
  {
  }

  /** White space in a UTR does not matter, and nothing else is changed in it. */
  lemma UtrIgnoresBlanks(a: string, c: char, b: string)
    ensures IsSpace(c) ==> NormalizeUtr(a + [c] + b) == NormalizeUtr(a + b)
    ensures !IsSpace(c) ==> NormalizeUtr(a + [c] + b) == NormalizeUtr(a) + [c] + NormalizeUtr(b)
  {
    var keep := (ch: char) => !IsSpace(ch);
    UtrIsFilter(a + [c] + b, keep);
    UtrIsFilter(a + b, keep);
    UtrIsFilter(a, keep);
    UtrIsFilter(b, keep);
    FilterSplits(a + [c], b, keep);
    FilterSplits(a, [c], keep);
    FilterSplits(a, b, keep);
    FilterOne(c, keep);
  }

  lemma {:induction false} UtrIsFilter(s: string, keep: char -> bool)
    requires forall c :: keep(c) <==> !IsSpace(c)
    ensures NormalizeUtr(s) == Filter(s, keep)
  {
    SameFilter(s, c => !IsSpace(c), keep);
  }

  lemma {:induction false} SameFilter(s: string, f: char -> bool, g: char -> bool)
    requires forall c :: f(c) <==> g(c)
    ensures Filter(s, f) == Filter(s, g)
  {
    if s != "" { SameFilter(s[1..], f, g); }
  }

  /** While a payment is under review the platform is closed, trial or not, and the website is open for the trial and
      any period already paid. */
  lemma SubmissionGives(c: Config, s: Store, op: Op, t: int)
    requires op.Submit? && SubmitAnswer(c, s, op).Ok?
    ensures
      var next := After(c, s, op);
      var was, user := s.users[op.userId], next.users[op.userId];
      var v := ViewOf(c, user, op.product, t);
      && OnlyUser(s, next, op.userId) && next.ledger == s.ledger
      && |next.submissions| == |s.submissions| + 1 && next.submissions[..|s.submissions|] == s.submissions
      && InReview(next, |s.submissions|) && next.submissions[|s.submissions|].userId == op.userId
      && next.submissions[|s.submissions|].product == op.product && next.submissions[|s.submissions|].plan == op.plan
      && next.submissions[|s.submissions|].createdAt == op.now
      && v.status == PendingVerification && v.plan == Some(op.plan)
      && v.hasAccess == (op.product == Website && (was.trialEndsAt > t || Ahead(was.websitePeriodEnd, t)))
      && SameView(c, was, user, OtherProduct(op.product), t)
  {
    SubmitOkIff(c, s, op);
  }

  // ----- Razorpay -----

  /** The plan of a renewal: the one noted on the event, else the one on record, else monthly. */
  predicate PlanFollows(u: User, note: Option<Plan>, plan: Plan) {
    && (note.Some? ==> plan == note.value)
    && (note.None? && u.plan.Some? ==> plan == u.plan.value)
    && (note.None? && u.plan.None? ==> plan == Monthly)
  }

  /** What a subscription event leaves its user: paid until the new end, or what is left of the paid period. */
  lemma EventGives(c: Config, s: Store, op: Op, t: int)
    requires op.Subscription? && op.userId < |s.users|
    ensures
      var next := After(c, s, op);
      var was, user := s.users[op.userId], next.users[op.userId];
      && OnlyUser(s, next, op.userId) && next.submissions == s.submissions
      && user.trialEndsAt == was.trialEndsAt && SameView(c, was, user, Website, t)
      && (Billed(c, was, Platform) ==>
            match op.kind
            case Renewing =>
              exists plan :: PlanFollows(was, op.planNote, plan) && PaidUntil(c, user, Platform, plan, op.accessEnd, t)
            case Failing => RunsOut(c, user, PastDue, was.periodEnd, t)
            case Ending => RunsOut(c, user, Cancelled, was.periodEnd, t)
            case OtherEvent => user == was)
  {
    var was := s.users[op.userId];
    var plan := if op.planNote.Some? then op.planNote.value else if was.plan.Some? then was.plan.value else Monthly;
    assert PlanFollows(was, op.planNote, plan);
    if op.kind.Renewing? && Billed(c, was, Platform) {
      assert PaidUntil(c, After(c, s, op).users[op.userId], Platform, plan, op.accessEnd, t);
    }
  }

  /** No subscription is on record for the user, or this one is. */
  predicate MayCheckOut(u: User, subscriptionId: string) {
    u.subscriptionId.Some? && u.subscriptionId.value != "" ==> u.subscriptionId.value == subscriptionId
  }

  /** A checkout is accepted exactly for a known user without a subscription of another id, and then the platform is
      paid until the new end; a refused one changes nothing. */
  lemma CheckoutGives(c: Config, s: Store, op: Op, t: int)
    requires op.Checkout?
    ensures
      var next := After(c, s, op);
      && next.submissions == s.submissions
      && (if op.userId < |s.users| && MayCheckOut(s.users[op.userId], op.subscriptionId) then
            var was, user := s.users[op.userId], next.users[op.userId];
            && OnlyUser(s, next, op.userId) && SameView(c, was, user, Website, t)
            && user.trialEndsAt == was.trialEndsAt && user.subscriptionId == Some(op.subscriptionId)
            && (op.paymentId != "" ==> PaymentRecorded(next.ledger, op.paymentId))
            && (Billed(c, was, Platform) ==>
                  PaidUntil(c, user, Platform, if was.plan.Some? then was.plan.value else Monthly, op.accessEnd, t))
          else next == s)
  {
    if CheckoutAccepted(s, op) && op.paymentId != "" { RecordedNow(c, s, op, op.paymentId); }
  }

  // ----- the ledger -----

  /** A ledger row of a review: the submission, its user, product, plan and price. */
  predicate TellsReview(txn: Txn, row: Submission, id: nat) {
    && txn.userId == row.userId && txn.product == row.product && txn.plan == Some(row.plan)
    && txn.amountInr == row.amountInr && txn.submissionId == Some(id) && txn.paymentId.None?
    && ((txn.event == ManualApproved && txn.status == "captured")
        || (txn.event == ManualRejected && txn.status == "rejected"))
  }

  /** A ledger row of a Razorpay payment. */
  predicate TellsPayment(txn: Txn, op: Op) {
    (op.Checkout? && txn.event == CheckoutActivated && txn.paymentId == Some(op.paymentId)
     && txn.userId == op.userId && txn.subscriptionId == Some(op.subscriptionId)
     && txn.amountInr == op.amountInr && txn.status == op.status && txn.product == Platform && txn.submissionId.None?)
    || (op.Subscription? && op.charge.Some? && txn.event == SubscriptionCharged
        && txn.paymentId == op.charge.value.paymentId && txn.userId == op.userId
        && txn.subscriptionId == Some(op.subscriptionId) && txn.amountInr == op.charge.value.amountInr
        && txn.status == op.charge.value.status && txn.product == Platform && txn.submissionId.None?)
  }

  /** The ledger only grows, by at most one row a call: the review of a waiting submission, or a payment of a known user
      that is not yet on record. */
  lemma LedgerGains(c: Config, s: Store, op: Op)
    requires BillingInv(s)
    ensures
      var next := After(c, s, op).ledger;
      if (op.Approve? || op.Reject?) && InReview(s, op.id) then
        && |next| == |s.ledger| + 1 && next[..|s.ledger|] == s.ledger
        && TellsReview(next[|s.ledger|], s.submissions[op.id], op.id)
        && (next[|s.ledger|].event == ManualApproved <==> op.Approve?)
      else if (op.Checkout? && Tells(s, op, op.paymentId))
           || (op.Subscription? && op.userId < |s.users| && op.charge.Some?) then
        if next == s.ledger then
          exists id: string :: id != "" && Tells(s, op, id) && PaymentRecorded(s.ledger, id)
        else
          && |next| == |s.ledger| + 1 && next[..|s.ledger|] == s.ledger && TellsPayment(next[|s.ledger|], op)
      else next == s.ledger
  {
    if (op.Approve? || op.Reject?) && InReview(s, op.id) {
      ApproveNeverConflicts(s, op.id);
    } else if op.Checkout? && CheckoutAccepted(s, op) {
      assert Tells(s, op, op.paymentId);
    } else if op.Subscription? && op.userId < |s.users| && op.charge.Some? && op.charge.value.paymentId.Some? {
      assert Tells(s, op, op.charge.value.paymentId.value);
    }
  }

  // ----- access lasts -----

  /** The call is about this user. */
  predicate Concerns(s: Store, op: Op, u: nat) {
    match op
    case Submit(userId, _, _, _, _, _) => userId == u
    case Subscription(userId, _, _, _, _, _) => userId == u
    case Checkout(userId, _, _, _, _, _) => userId == u
    case Approve(id, _, _, _) => id < |s.submissions| && s.submissions[id].userId == u
    case Reject(id, _, _, _) => id < |s.submissions| && s.submissions[id].userId == u
    case Expire(id, _) => id < |s.submissions| && s.submissions[id].userId == u
    case Remind(_, _, _) => false
  }

  /** No call of the run is about this user, and its daily jobs run before `end`. */
  predicate Quiet(c: Config, s: Store, ops: seq<Op>, u: nat, end: int)
    decreases ops
  {
    ops == []
    || (!Concerns(s, ops[0], u) && (ops[0].Remind? ==> ops[0].now < end)
        && Quiet(c, After(c, s, ops[0]), ops[1..], u, end))
  }

  /** The record but for the memory of notices; the platform status may have become `expired` where no platform period
      is open to `end`. */
  predicate KeptUntil(a: User, b: User, end: int) {
    && b.(expiringNotifiedFor := a.expiringNotifiedFor, expiredNotifiedFor := a.expiredNotifiedFor, status := a.status)
       == a
    && (b.status == a.status || (b.status == Expired && !(a.status == Active && a.periodEnd == Some(end))))
  }

  lemma AfterKept(c: Config, s: Store, op: Op, u: nat, end: int)
    requires u < |s.users| && !Concerns(s, op, u) && (op.Remind? ==> op.now < end)
    ensures |After(c, s, op).users| == |s.users| && KeptUntil(s.users[u], After(c, s, op).users[u], end)
  {
  }

  lemma KeptChain(a: User, b: User, d: User, end: int)
    requires KeptUntil(a, b, end) && KeptUntil(b, d, end)
    ensures KeptUntil(a, d, end)
  {
  }

  lemma {:induction false} RunKept(c: Config, s: Store, ops: seq<Op>, u: nat, end: int)
    requires u < |s.users| && Quiet(c, s, ops, u, end)
    ensures u < |Run(c, s, ops).users| && KeptUntil(s.users[u], Run(c, s, ops).users[u], end)
    decreases ops
  {
    if ops != [] {
      AfterKept(c, s, ops[0], u, end);
      RunKept(c, After(c, s, ops[0]), ops[1..], u, end);
      KeptChain(s.users[u], After(c, s, ops[0]).users[u], Run(c, s, ops).users[u], end);
    }
  }

  /** A user whose payment was approved has the plan up to the end that was set, through any run of calls for other
      users and daily jobs before it. */
  lemma ApprovedAccessLasts(c: Config, s: Store, op: Op, later: seq<Op>, t: int)
    requires BillingInv(s) && op.Approve? && InReview(s, op.id) && t < op.accessEnd
    requires Quiet(c, After(c, s, op), later, s.submissions[op.id].userId, op.accessEnd)
    requires s.submissions[op.id].userId < |s.users|
    requires Billed(c, s.users[s.submissions[op.id].userId], s.submissions[op.id].product)
    ensures
      var row, users := s.submissions[op.id], Run(c, After(c, s, op), later).users;
      row.userId < |users|
      && var v := ViewOf(c, users[row.userId], row.product, t);
         v.hasAccess && v.status == Active && v.plan == Some(row.plan) && v.periodEnd == Some(op.accessEnd)
  {
    var row := s.submissions[op.id];
    var approved := After(c, s, op);
    ApprovalGives(c, s, op, t);
    RunKept(c, approved, later, row.userId, op.accessEnd);
    ApproveNeverConflicts(s, op.id);
    ActiveShows(c, approved.users[row.userId], Run(c, approved, later).users[row.userId], row, op.accessEnd, t);
  }

  lemma ActiveShows(c: Config, a: User, b: User, row: Submission, end: int, t: int)
    requires KeptUntil(a, b, end) && t < end && Billed(c, a, row.product)
    requires StatusOf(a, row.product) == Active && PeriodEndOf(a, row.product) == Some(end)
    requires ViewOf(c, a, row.product, t).plan == Some(row.plan)
    ensures var v := ViewOf(c, b, row.product, t);
      v.hasAccess && v.status == Active && v.plan == Some(row.plan) && v.periodEnd == Some(end)
  {
  }

  // ----- what was asked for -----

  /** A submission asks for the configured price of its product and plan, and names a well-formed transfer. */
  predicate Asked(p: Prices, row: Submission) {
    && (row.product == Platform && row.plan == Monthly ==> row.amountInr == p.monthly)
    && (row.product == Platform && row.plan == Yearly ==> row.amountInr == p.yearly)
    && (row.product == Website && row.plan == Monthly ==> row.amountInr == p.websiteMonthly)
    && (row.product == Website && row.plan == Yearly ==> row.amountInr == p.websiteYearly)
    && 8 <= |row.utr| <= 64 && (forall ch | ch in row.utr :: IsAlphanumeric(ch))
    && (row.status == Refused <==> row.rejectionReason.Some?)
    && (row.rejectionReason.Some? ==> 1 <= |row.rejectionReason.value| <= 500)
  }

  ghost predicate AllAsked(c: Config, s: Store) {
    forall i | 0 <= i < |s.submissions| :: Asked(c.prices, s.submissions[i])
  }

  lemma AfterKeepsAsked(c: Config, s: Store, op: Op)
    requires AllAsked(c, s)
    ensures AllAsked(c, After(c, s, op))
  {
    if op.Reject? { ReasonMeans(op.reason); }
  }

  /** In every run each submission asks for the configured price of its plan, and each refusal gives a reason. */
  lemma {:induction false} RunKeepsAsked(c: Config, s: Store, ops: seq<Op>)
    requires AllAsked(c, s)
    ensures AllAsked(c, Run(c, s, ops))
    decreases ops
  {
    if ops != [] {
      AfterKeepsAsked(c, s, ops[0]);
      RunKeepsAsked(c, After(c, s, ops[0]), ops[1..]);
    }
  }

  /** The reason shown: the trimmed text, cut after 500 characters, or a standard one. */
  lemma ReasonMeans(raw: string)
    ensures 1 <= |Reason(raw)| <= 500
    ensures Trim(raw) != "" ==> Reason(raw) <= Trim(raw) && (|Reason(raw)| < 500 ==> Reason(raw) == Trim(raw))
    ensures Trim(raw) == "" ==> Reason(raw) == DEFAULT_REASON
  {
  }
}
