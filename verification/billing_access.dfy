/** The billing record of a user, and what it lets the user do at a given instant (milliseconds). */
module BillingAccess {
  import opened Wrappers

  datatype Status = NotSubscribed | Trial | Active | PastDue | Cancelled | Expired | PendingVerification

  datatype Plan = Monthly | Yearly

  datatype User = User(
    isSuperAdmin: bool, trialEndsAt: int,
    status: Status, plan: Option<Plan>, periodEnd: Option<int>, cancelAtPeriodEnd: bool,
    websiteStatus: Status, websitePlan: Option<Plan>, websitePeriodEnd: Option<int>,
    subscriptionId: Option<string>,
    expiringNotifiedFor: Option<int>, expiredNotifiedFor: Option<int>)

  datatype Config = Config(billingEnabled: bool, websiteFlag: bool, upiManualEnabled: bool, prices: Prices)

  datatype Prices = Prices(monthly: nat, yearly: nat, websiteMonthly: nat, websiteYearly: nat)

  predicate WebsiteBillingEnabled(c: Config) { c.billingEnabled && c.websiteFlag }

  /** What the status endpoints show.  `daysLeft` is null when billing does not apply to the user. */
  datatype View = View(
    billingEnabled: bool, status: Status, plan: Option<Plan>, hasAccess: bool,
    trialEndsAt: Option<int>, periodEnd: Option<int>, cancelAtPeriodEnd: bool, daysLeft: Option<nat>)

  const DAY_MS := 86400000

  /** `Math.ceil(ms / day)`, never below 0. */
  function DaysUntil(date: int, now: int): nat {
    var days := -((now - date) / DAY_MS);
    if days < 0 then 0 else days
  }

  lemma DaysUntilIs(date: int, now: int)
    ensures DaysUntil(date, now) >= 1 <==> date > now
    ensures date > now ==> (DaysUntil(date, now) - 1) * DAY_MS < date - now <= DaysUntil(date, now) * DAY_MS
  {
  }

  predicate Ahead(date: Option<int>, now: int) { date.Some? && date.value > now }

  const EVERYTHING := View(false, Active, None, true, None, None, false, None)

  function ResolveWebsiteStatus(c: Config, u: User, now: int): View {
    if u.isSuperAdmin || !WebsiteBillingEnabled(c) then EVERYTHING
    else
      var withinPaid := Ahead(u.websitePeriodEnd, now);
      var trialActive := u.trialEndsAt > now;
      var trial := Some(u.trialEndsAt);
      if u.websiteStatus == PendingVerification then
        View(true, PendingVerification, u.websitePlan, trialActive || withinPaid, trial, u.websitePeriodEnd, false,
             Some(if trialActive then DaysUntil(u.trialEndsAt, now)
                  else if withinPaid then DaysUntil(u.websitePeriodEnd.value, now) else 0))
      else if (u.websiteStatus == Active || u.websiteStatus == Cancelled) && withinPaid then
        View(true, u.websiteStatus, u.websitePlan, true, trial, u.websitePeriodEnd, false,
             Some(DaysUntil(u.websitePeriodEnd.value, now)))
      else if trialActive then
        View(true, Trial, None, true, trial, None, false, Some(DaysUntil(u.trialEndsAt, now)))
      else if u.websiteStatus == NotSubscribed && u.websitePeriodEnd.None? then
        View(true, NotSubscribed, None, false, trial, None, false, Some(0))
      else
        View(true, Expired, u.websitePlan, false, trial, u.websitePeriodEnd, false, Some(0))
  }

  function ResolveStatus(c: Config, u: User, now: int): View {
    if u.isSuperAdmin || !c.billingEnabled then EVERYTHING
    else
      var withinPaid := Ahead(u.periodEnd, now);
      var trial := Some(u.trialEndsAt);
      var paidDays := Some(if withinPaid then DaysUntil(u.periodEnd.value, now) else 0);
      if u.status == PendingVerification then
        View(true, PendingVerification, u.plan, false, trial, u.periodEnd, false, Some(0))
      else if u.status == Active && withinPaid then
        View(true, Active, u.plan, true, trial, u.periodEnd, u.cancelAtPeriodEnd, paidDays)
      else if u.status == PastDue || u.status == Cancelled then
        View(true, u.status, u.plan, withinPaid, trial, u.periodEnd, u.cancelAtPeriodEnd, paidDays)
      else if u.trialEndsAt > now then
        View(true, Trial, None, true, trial, None, false, Some(DaysUntil(u.trialEndsAt, now)))
      else
        View(true, Expired, None, false, trial, u.periodEnd, false, Some(0))
  }

  /** Platform access, where billing applies: an open paid period of a subscription that is active, past due or
      cancelled, or else the trial, which past due, cancelled and reviewed accounts do not get. */
  lemma PlatformAccessIff(c: Config, u: User, now: int)
    ensures ResolveStatus(c, u, now).hasAccess <==>
      (|| u.isSuperAdmin || !c.billingEnabled
       || (u.status in {Active, PastDue, Cancelled} && u.periodEnd.Some? && now < u.periodEnd.value)
       || (u.status in {NotSubscribed, Trial, Active, Expired} && now < u.trialEndsAt))
  {
  }

  /** Website access, where billing applies: the trial, or an open paid period of a subscription that is active,
      cancelled or under review. */
  lemma WebsiteAccessIff(c: Config, u: User, now: int)
    ensures ResolveWebsiteStatus(c, u, now).hasAccess <==>
      (|| u.isSuperAdmin || !c.billingEnabled || !c.websiteFlag || now < u.trialEndsAt
       || (u.websiteStatus in {Active, Cancelled, PendingVerification}
           && u.websitePeriodEnd.Some? && now < u.websitePeriodEnd.value))
  {
  }

  /** Which status is shown, where billing applies: a status of the record while it means something, else how the trial
      stands. */
  lemma StatusShown(c: Config, u: User, now: int)
    requires c.billingEnabled && c.websiteFlag && !u.isSuperAdmin
    ensures
      var v, trial := ResolveStatus(c, u, now), now < u.trialEndsAt;
      && (v.status == PendingVerification <==> u.status == PendingVerification)
      && (v.status == Active <==> u.status == Active && u.periodEnd.Some? && now < u.periodEnd.value)
      && (v.status == PastDue <==> u.status == PastDue) && (v.status == Cancelled <==> u.status == Cancelled)
      && (v.status in {Trial, Expired} ==> (v.status == Trial <==> trial)) && v.status != NotSubscribed
    ensures
      var v, trial := ResolveWebsiteStatus(c, u, now), now < u.trialEndsAt;
      var open := u.websitePeriodEnd.Some? && now < u.websitePeriodEnd.value;
      && (v.status == PendingVerification <==> u.websiteStatus == PendingVerification)
      && (v.status == Active <==> u.websiteStatus == Active && open)
      && (v.status == Cancelled <==> u.websiteStatus == Cancelled && open)
      && (v.status == NotSubscribed <==> u.websiteStatus == NotSubscribed && u.websitePeriodEnd.None? && !trial)
      && (v.status in {Trial, NotSubscribed, Expired} ==> (v.status == Trial <==> trial)) && v.status != PastDue
  {
  }

  /** While the record is unchanged, access that is gone does not come back. */
  lemma AccessNeverReturns(c: Config, u: User, earlier: int, later: int)
    requires earlier <= later
    ensures ResolveStatus(c, u, later).hasAccess ==> ResolveStatus(c, u, earlier).hasAccess
    ensures ResolveWebsiteStatus(c, u, later).hasAccess ==> ResolveWebsiteStatus(c, u, earlier).hasAccess
  {
  }

  predicate Agrees(v: View) { v.daysLeft.Some? ==> (v.daysLeft.value >= 1 <==> v.hasAccess) }

  /** Where billing applies, at least one day is left exactly while there is access. */
  lemma DaysLeftIffAccess(c: Config, u: User, now: int)
    ensures Agrees(ResolveStatus(c, u, now)) && Agrees(ResolveWebsiteStatus(c, u, now))
    ensures ResolveStatus(c, u, now).daysLeft.None? <==> u.isSuperAdmin || !c.billingEnabled
    ensures ResolveWebsiteStatus(c, u, now).daysLeft.None? <==> u.isSuperAdmin || !WebsiteBillingEnabled(c)
  {
    DaysUntilIs(u.trialEndsAt, now);
    if u.periodEnd.Some? { DaysUntilIs(u.periodEnd.value, now); }
    if u.websitePeriodEnd.Some? { DaysUntilIs(u.websitePeriodEnd.value, now); }
  }

  /** The days shown never promise too much: after that many days, and nothing else happening, the end
      that was counted down to has passed, and one day before it has not. */
  lemma DaysLeftCountsToTheEnd(c: Config, u: User, now: int)
    requires ResolveStatus(c, u, now).daysLeft.Some? && ResolveStatus(c, u, now).hasAccess
    ensures var days := ResolveStatus(c, u, now).daysLeft.value;
      && ResolveStatus(c, u, now + (days - 1) * DAY_MS).hasAccess
      && !(ResolveStatus(c, u, now + days * DAY_MS).hasAccess
           && ResolveStatus(c, u, now + days * DAY_MS).status == ResolveStatus(c, u, now).status)
  {
    DaysUntilIs(u.trialEndsAt, now);
    if u.periodEnd.Some? { DaysUntilIs(u.periodEnd.value, now); }
  }
}
