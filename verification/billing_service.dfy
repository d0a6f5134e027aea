/** The billing services over mutable tables, proved to do what `Billing` says. */
module BillingServices {
  import opened Wrappers
  import opened BillingAccess
  import opened Billing

  predicate Stale(row: Submission, userId: Option<nat>, cutoff: int) {
    row.status == Pending && row.createdAt < cutoff && (userId.None? || row.userId == userId.value)
  }

  /** The stale pending submissions, of one user or of all, in id order. */
  function StaleIds(submissions: seq<Submission>, userId: Option<nat>, cutoff: int): (ids: seq<nat>)
    ensures forall i: nat :: i in ids <==> i < |submissions| && Stale(submissions[i], userId, cutoff)
    ensures forall a, b | 0 <= a < b < |ids| :: ids[a] < ids[b]
  {
    if submissions == [] then []
    else
      var n := |submissions| - 1;
      var earlier := StaleIds(submissions[..n], userId, cutoff);
      assert forall a | 0 <= a < |earlier| :: earlier[a] in earlier;
      if Stale(submissions[n], userId, cutoff) then earlier + [n] else earlier
  }

  function ExpireAll(s: Store, ids: seq<nat>, now: int): Store {
    if ids == [] then s else AfterExpire(ExpireAll(s, ids[..|ids| - 1], now), ids[|ids| - 1], now)
  }

  class BillingService {
    const config: Config
    var users: seq<User>
    var submissions: seq<Submission>
    var ledger: seq<Txn>

    function Tables(): Store
      reads this
    {
      Store(users, submissions, ledger)
    }

    constructor (config: Config, users: seq<User>)
      ensures this.config == config && Tables() == Store(users, [], [])
    {
      this.config, this.users, this.submissions, this.ledger := config, users, [], [];
    }

    method SubmitManualPayment(userId: nat, product: Product, plan: Plan, rawUtr: string, proofBytes: nat, now: int)
      returns (answer: Result<nat, Error>)
      modifies this`users, this`submissions
      ensures answer == SubmitAnswer(config, old(Tables()), Submit(userId, product, plan, rawUtr, proofBytes, now))
      ensures Tables() == After(config, old(Tables()), Submit(userId, product, plan, rawUtr, proofBytes, now))
    {
      if !config.billingEnabled { return Err(BillingDisabled); }
      if product == Website && !WebsiteBillingEnabled(config) { return Err(WebsiteBillingDisabled); }
      if !config.upiManualEnabled { return Err(UpiDisabled); }
      var utr := NormalizeUtr(rawUtr);
      if !ValidUtr(utr) { return Err(InvalidUtr); }
      if proofBytes == 0 { return Err(NoProof); }
      if proofBytes > MAX_PROOF_BYTES { return Err(ProofTooLarge); }
      if userId >= |users| { return Err(UserNotFound); }
      var user := users[userId];
      var shown := ResolveStatus(config, user, now);
      if product == Website { shown := ResolveWebsiteStatus(config, user, now); }
      if shown.status == Active { return Err(AlreadyActive); }
      if shown.status == PendingVerification { return Err(AlreadyUnderReview); }
      var duplicate := UtrInUse(submissions, product, utr);
      if duplicate { return Err(DuplicateUtr); }
      submissions := submissions + [
        Submission(userId, product, plan, Price(config, product, plan), utr, Pending, now, None, None, None, None)];
      if product == Website {
        users := users[userId := user.(websiteStatus := PendingVerification, websitePlan := Some(plan))];
      } else {
        users := users[userId := user.(status := PendingVerification, plan := Some(plan))];
      }
      return Ok(|submissions| - 1);
    }

    /** `recordTransaction`. */
    method RecordTransaction(txn: Txn)
      modifies this`ledger
      ensures ledger == Record(old(ledger), txn)
    {
      if txn.paymentId.Some? && txn.paymentId.value != "" {
        for k := 0 to |ledger|
          invariant ledger == old(ledger)
          invariant forall j | 0 <= j < k :: ledger[j].paymentId != txn.paymentId
        {
          if ledger[k].paymentId == txn.paymentId { return; }
        }
      }
      ledger := ledger + [txn];
    }

    method ApproveSubmission(id: nat, adminId: nat, accessEnd: int, now: int) returns (answer: Result<nat, Error>)
      requires id < |submissions| ==> submissions[id].userId < |users|
      modifies this
      ensures answer == ApproveAnswer(old(Tables()), id)
      ensures Tables() == After(config, old(Tables()), Approve(id, adminId, accessEnd, now))
    {
      if id >= |submissions| { return Err(SubmissionNotFound); }
      var submission := submissions[id];
      if submission.status != Pending { return Err(NotPending(submission.status)); }
      var conflict := ApprovedElsewhere(submissions, id);
      if conflict { return Err(UtrAlreadyApproved); }
      var u := submission.userId;
      if submission.product == Website {
        users := users[u := users[u].(websiteStatus := Active, websitePlan := Some(submission.plan),
                                      websitePeriodEnd := Some(accessEnd))];
      } else {
        users := users[u := users[u].(status := Active, plan := Some(submission.plan),
                                      periodEnd := Some(accessEnd), cancelAtPeriodEnd := false)];
      }
      RecordTransaction(ManualRow(submission, id, ManualApproved, "captured"));
      submissions := submissions[id := submission.(status := Approved, reviewedBy := Some(adminId),
                                                   reviewedAt := Some(now), txnId := Some(|ledger| - 1))];
      return Ok(id);
    }

    method RejectSubmission(id: nat, adminId: nat, reason: string, now: int) returns (answer: Result<nat, Error>)
      requires id < |submissions| ==> submissions[id].userId < |users|
      modifies this
      ensures answer == ReviewAnswer(old(Tables()), id)
      ensures Tables() == After(config, old(Tables()), Reject(id, adminId, reason, now))
    {
      if id >= |submissions| { return Err(SubmissionNotFound); }
      var submission := submissions[id];
      if submission.status != Pending { return Err(NotPending(submission.status)); }
      var u := submission.userId;
      var trialStillValid := users[u].trialEndsAt > now;
      if submission.product == Website {
        users := users[u := users[u].(websiteStatus := if trialStillValid then NotSubscribed else Expired,
                                      websitePlan := None, websitePeriodEnd := None)];
      } else {
        users := users[u := users[u].(status := if trialStillValid then Trial else Expired,
                                      plan := if trialStillValid then None else Some(submission.plan),
                                      periodEnd := None)];
      }
      submissions := submissions[id := submission.(status := Refused, rejectionReason := Some(Reason(reason)),
                                                   reviewedBy := Some(adminId), reviewedAt := Some(now))];
      RecordTransaction(ManualRow(submission, id, ManualRejected, "rejected"));
      return Ok(id);
    }

    /** `expireSubmission` or, for the add-on, `expireWebsiteSubmission`. */
    method ExpireSubmission(id: nat, now: int) returns (expired: bool)
      requires id < |submissions| ==> submissions[id].userId < |users|
      modifies this`users, this`submissions
      ensures expired == ReviewAnswer(old(Tables()), id).Ok?
      ensures Tables() == After(config, old(Tables()), Expire(id, now))
    {
      if id >= |submissions| || submissions[id].status != Pending { return false; }
      var submission := submissions[id];
      var u := submission.userId;
      var othersPending := OtherPending(submissions, id);
      submissions := submissions[id := submission.(status := Lapsed)];
      if StatusOf(users[u], submission.product) == PendingVerification && !othersPending {
        users := users[u := FallBack(users[u], submission.product, submission.plan, now)];
      }
      return true;
    }

    /** `expireStaleForUser` (with a user) and `expireStalePendingSubmissions` (without): every stale
        submission is expired, and all of them are counted. */
    method ExpireStale(userId: Option<nat>, cutoff: int, now: int) returns (count: nat)
      requires forall i | 0 <= i < |submissions| :: submissions[i].userId < |users|
      modifies this`users, this`submissions
      ensures Tables() == ExpireAll(old(Tables()), StaleIds(old(submissions), userId, cutoff), now)
      ensures count == |StaleIds(old(submissions), userId, cutoff)|
    {
      var stale := StaleIds(submissions, userId, cutoff);
      ghost var s := Tables();
      count := 0;
      for n := 0 to |stale|
        invariant Tables() == ExpireAll(s, stale[..n], now) && count == n
      {
        ExpireAllStep(s, stale, now, n);
        NextStillWaits(s, stale, userId, cutoff, now, n);
        var expired := ExpireSubmission(stale[n], now);
        if expired { count := count + 1; }
      }
      assert stale[..|stale|] == stale;
    }

    method ApplySubscriptionEvent(userId: nat, kind: EventKind, planNote: Option<Plan>, accessEnd: int,
                                  subscriptionId: string, charge: Option<Charge>)
      modifies this`users, this`ledger
      ensures Tables()
        == After(config, old(Tables()), Subscription(userId, kind, planNote, accessEnd, subscriptionId, charge))
    {
      if userId >= |users| { return; }
      var user := users[userId];
      match kind {
        case Renewing =>
          users := users[userId := user.(
            subscriptionId := Some(subscriptionId), status := Active, plan := Some(EventPlan(user, planNote)),
            periodEnd := Some(accessEnd), cancelAtPeriodEnd := false)];
        case Failing =>
          users := users[userId := user.(status := PastDue)];
        case Ending =>
          users := users[userId := user.(status := Cancelled, cancelAtPeriodEnd := false)];
        case OtherEvent =>
      }
      if charge.Some? {
        var plan := EventPlan(users[userId], planNote);
        RecordTransaction(Txn(userId, Platform, SubscriptionCharged, charge.value.paymentId, Some(subscriptionId),
                              Some(plan), charge.value.amountInr, charge.value.status, None));
      }
    }

    method ActivateFromCheckout(userId: nat, paymentId: string, accessEnd: int, subscriptionId: string,
                                amountInr: nat, status: string) returns (accepted: bool)
      modifies this`users, this`ledger
      ensures accepted
        == CheckoutAccepted(old(Tables()), Checkout(userId, paymentId, accessEnd, subscriptionId, amountInr, status))
      ensures Tables()
        == After(config, old(Tables()), Checkout(userId, paymentId, accessEnd, subscriptionId, amountInr, status))
    {
      if userId >= |users| { return false; }
      var user := users[userId];
      if user.subscriptionId.Some? && user.subscriptionId.value != "" && user.subscriptionId.value != subscriptionId {
        return false;
      }
      var plan := EventPlan(user, None);
      users := users[userId := user.(subscriptionId := Some(subscriptionId), status := Active, plan := Some(plan),
                                     periodEnd := Some(accessEnd))];
      RecordTransaction(Txn(userId, Platform, CheckoutActivated, Some(paymentId), Some(subscriptionId), Some(plan),
                            amountInr, status, None));
      return true;
    }
  }

  // ----- what a sweep does -----

  function Lapse(row: Submission): Submission { row.(status := Lapsed) }

  /** The rows numbered in `done` have lapsed, and nothing else has changed in the submissions. */
  ghost predicate Swept(s: Store, s': Store, done: seq<nat>) {
    && |s'.submissions| == |s.submissions| && |s'.users| == |s.users| && s'.ledger == s.ledger
    && forall i: nat | i < |s.submissions| ::
         s'.submissions[i] == if i in done then Lapse(s.submissions[i]) else s.submissions[i]
  }

  lemma ExpireSweepsOne(s: Store, s': Store, done: seq<nat>, id: nat, now: int)
    requires Swept(s, s', done) && id !in done && id < |s.submissions|
    requires s.submissions[id].status == Pending && s.submissions[id].userId < |s.users|
    ensures Swept(s, AfterExpire(s', id, now), done + [id])
  {
    assert s'.submissions[id] == s.submissions[id];
    assert AfterExpire(s', id, now).submissions == s'.submissions[id := Lapse(s'.submissions[id])];
    assert forall i :: i in done + [id] <==> i in done || i == id;
  }

  /** After the first `n` stale submissions exactly those have lapsed. */
  lemma {:induction false} SweepSoFar(s: Store, ids: seq<nat>, userId: Option<nat>, cutoff: int, now: int, n: nat)
    requires forall i | 0 <= i < |s.submissions| :: s.submissions[i].userId < |s.users|
    requires ids == StaleIds(s.submissions, userId, cutoff) && n <= |ids|
    ensures Swept(s, ExpireAll(s, ids[..n], now), ids[..n])
    decreases n
  {
    if n > 0 {
      SweepSoFar(s, ids, userId, cutoff, now, n - 1);
      assert ids[..n][..n - 1] == ids[..n - 1] && ids[..n] == ids[..n - 1] + [ids[n - 1]];
      assert ids[n - 1] in ids && ids[n - 1] !in ids[..n - 1];
      ExpireSweepsOne(s, ExpireAll(s, ids[..n - 1], now), ids[..n - 1], ids[n - 1], now);
    }
  }

  lemma ExpireAllStep(s: Store, ids: seq<nat>, now: int, n: nat)
    requires n < |ids|
    ensures ExpireAll(s, ids[..n + 1], now) == AfterExpire(ExpireAll(s, ids[..n], now), ids[n], now)
  {
    assert ids[..n + 1][..n] == ids[..n];
  }

  lemma NextStillWaits(s: Store, ids: seq<nat>, userId: Option<nat>, cutoff: int, now: int, n: nat)
    requires forall i | 0 <= i < |s.submissions| :: s.submissions[i].userId < |s.users|
    requires ids == StaleIds(s.submissions, userId, cutoff) && n < |ids|
    ensures var s' := ExpireAll(s, ids[..n], now);
      ReviewAnswer(s', ids[n]).Ok? && s'.submissions[ids[n]].userId < |s'.users|
  {
    SweepSoFar(s, ids, userId, cutoff, now, n);
    assert ids[n] in ids && ids[n] !in ids[..n];
  }

  /** A sweep turns exactly the pending submissions of before the cutoff, of the one user or of all, into lapsed
      ones, and leaves none stale. */
  lemma SweepExpiresExactlyTheStale(s: Store, userId: Option<nat>, cutoff: int, now: int)
    requires forall i | 0 <= i < |s.submissions| :: s.submissions[i].userId < |s.users|
    ensures var s' := ExpireAll(s, StaleIds(s.submissions, userId, cutoff), now);
      && |s'.submissions| == |s.submissions| && s'.ledger == s.ledger && |s'.users| == |s.users|
      && forall i: nat | i < |s.submissions| ::
           var row := s.submissions[i];
           && s'.submissions[i] ==
                (if row.status == Pending && row.createdAt < cutoff && (userId.None? || userId == Some(row.userId))
                 then row.(status := Lapsed) else row)
           && !Stale(s'.submissions[i], userId, cutoff)
  {
    var ids := StaleIds(s.submissions, userId, cutoff);
    SweepSoFar(s, ids, userId, cutoff, now, |ids|);
    assert ids[..|ids|] == ids;
    assert forall i: nat | i < |s.submissions| :: i in ids <==> Stale(s.submissions[i], userId, cutoff);
  }

  /** A sweep is a run of single expiries, so it keeps the billing invariants. */
  lemma {:induction false} SweepKeeps(s: Store, ids: seq<nat>, now: int)
    requires BillingInv(s)
    ensures BillingInv(ExpireAll(s, ids, now))
  {
    if ids != [] {
      SweepKeeps(s, ids[..|ids| - 1], now);
      ExpireKeeps(ExpireAll(s, ids[..|ids| - 1], now), ids[|ids| - 1], now);
    }
  }

  lemma {:induction false} SweepKeepsExact(c: Config, s: Store, ids: seq<nat>, now: int)
    requires BillingInv(s) && ReviewsExact(s)
    ensures ReviewsExact(ExpireAll(s, ids, now))
  {
    if ids != [] {
      var init := ids[..|ids| - 1];
      SweepKeeps(s, init, now);
      SweepKeepsExact(c, s, init, now);
      ManualKeepsExact(c, ExpireAll(s, init, now), Expire(ids[|ids| - 1], now));
    }
  }

  /** As long as Razorpay stays out, a user is under review after a sweep of all submissions exactly with one that waits
      since the cutoff or later. */
  lemma SweepEndsStaleReviews(c: Config, s: Store, cutoff: int, now: int, u: nat, product: Product)
    requires BillingInv(s) && ReviewsExact(s) && u < |s.users|
    ensures
      var users := ExpireAll(s, StaleIds(s.submissions, None, cutoff), now).users;
      u < |users|
      && (StatusOf(users[u], product) == PendingVerification <==>
            exists i :: 0 <= i < |s.submissions| && s.submissions[i].userId == u && s.submissions[i].product == product
              && s.submissions[i].status == Pending && s.submissions[i].createdAt >= cutoff)
  {
    var after := ExpireAll(s, StaleIds(s.submissions, None, cutoff), now);
    SweepExpiresExactlyTheStale(s, None, cutoff, now);
    SweepKeepsExact(c, s, StaleIds(s.submissions, None, cutoff), now);
    assert HasWaiting(after.submissions, u, product) <==> StatusOf(after.users[u], product) == PendingVerification;
    forall i: nat | i < |s.submissions| && s.submissions[i].userId == u && s.submissions[i].product == product
      && s.submissions[i].status == Pending && s.submissions[i].createdAt >= cutoff
      ensures Waiting(after.submissions, i, u, product)
    {
    }
    if HasWaiting(after.submissions, u, product) {
      var i: nat :| Waiting(after.submissions, i, u, product);
      assert s.submissions[i].status == Pending && s.submissions[i].createdAt >= cutoff;
    }
  }
}
