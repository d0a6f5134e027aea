/** The daily job that reminds users before their access ends and tells them once it has. */
module Lifecycle {
  import opened Wrappers
  import opened BillingAccess

  datatype WindowKind = TrialWindow | SubscriptionWindow

  datatype Window = Window(endsAt: int, kind: WindowKind)

  predicate PaidPeriodOpen(u: User, now: int) {
    (u.status == Active || u.status == PastDue || u.status == Cancelled) && Ahead(u.periodEnd, now)
  }

  function ResolveAccessWindow(u: User, now: int): Option<Window> {
    if u.status == PendingVerification then None
    else if PaidPeriodOpen(u, now) then Some(Window(u.periodEnd.value, SubscriptionWindow))
    else if u.trialEndsAt > now then Some(Window(u.trialEndsAt, TrialWindow))
    else None
  }

  function ResolveExpiredAt(u: User, now: int): Option<Window> {
    if ResolveAccessWindow(u, now).Some? then None
    else if u.periodEnd.Some? && u.periodEnd.value <= now then Some(Window(u.periodEnd.value, SubscriptionWindow))
    else if u.trialEndsAt <= now then Some(Window(u.trialEndsAt, TrialWindow))
    else None
  }

  /** Platform access always comes with an access window.  The converse fails exactly for a past-due or
      cancelled user whose paid period is over while the trial still runs. */
  lemma AccessVersusWindow(c: Config, u: User, now: int)
    requires c.billingEnabled && !u.isSuperAdmin
    ensures ResolveStatus(c, u, now).hasAccess <==>
      && ResolveAccessWindow(u, now).Some?
      && !((u.status == PastDue || u.status == Cancelled) && !Ahead(u.periodEnd, now) && u.trialEndsAt > now)
  {
  }

  datatype Notice = Expiring(window: Window, daysLeft: nat) | Ended(window: Window)

  /** The users the job looks at. */
  predicate Considered(u: User) {
    !u.isSuperAdmin && u.status != PendingVerification && u.status != NotSubscribed
  }

  /** The notice due to a user at `now`. */
  function Due(u: User, now: int, windowDays: nat): Option<Notice> {
    if !Considered(u) then None
    else
      var access := ResolveAccessWindow(u, now);
      if access.Some? then
        var daysLeft := DaysUntil(access.value.endsAt, now);
        if 1 <= daysLeft <= windowDays && u.expiringNotifiedFor != Some(access.value.endsAt)
        then Some(Expiring(access.value, daysLeft)) else None
      else
        var ended := ResolveExpiredAt(u, now);
        if ended.Some? && u.expiredNotifiedFor != Some(ended.value.endsAt) then Some(Ended(ended.value)) else None
  }

  /** What the job records once the notice is out. */
  function Recorded(u: User, notice: Notice): User {
    match notice
    case Expiring(window, _) => u.(expiringNotifiedFor := Some(window.endsAt))
    case Ended(window) =>
      var u' := u.(expiredNotifiedFor := Some(window.endsAt));
      if u.status != Expired && u.status != Cancelled then u'.(status := Expired) else u'
  }

  /** One user's turn; `delivered` is false when sending the notice fails, and nothing is recorded. */
  function Reminded(u: User, now: int, windowDays: nat, delivered: bool): User {
    var due := Due(u, now, windowDays);
    if due.Some? && delivered then Recorded(u, due.value) else u
  }

  function Sent(u: User, now: int, windowDays: nat, delivered: bool): Option<Notice> {
    if delivered then Due(u, now, windowDays) else None
  }

  // ----- the job over all users -----

  datatype Mail = Mail(userId: nat, notice: Notice)

  function RemindAll(users: seq<User>, now: int, windowDays: nat, delivered: nat -> bool): (r: seq<User>)
    ensures |r| == |users|
    ensures forall i | 0 <= i < |users| :: r[i] == Reminded(users[i], now, windowDays, delivered(i))
  {
    seq(|users|, i requires 0 <= i < |users| => Reminded(users[i], now, windowDays, delivered(i)))
  }

  function MailOf(users: seq<User>, now: int, windowDays: nat, delivered: nat -> bool): seq<Mail> {
    if users == [] then []
    else
      var i := |users| - 1;
      var sent := Sent(users[i], now, windowDays, delivered(i));
      MailOf(users[..i], now, windowDays, delivered) + if sent.Some? then [Mail(i, sent.value)] else []
  }

  function CountExpiring(mail: seq<Mail>): nat {
    if mail == [] then 0
    else CountExpiring(mail[..|mail| - 1]) + (if mail[|mail| - 1].notice.Expiring? then 1 else 0)
  }

  /** The users once the first `n` have had their turn. */
  function RemindFirst(users: seq<User>, n: nat, now: int, windowDays: nat, delivered: nat -> bool): seq<User>
    requires n <= |users|
  {
    RemindAll(users[..n], now, windowDays, delivered) + users[n..]
  }

  lemma FirstStep(users: seq<User>, i: nat, now: int, windowDays: nat, delivered: nat -> bool)
    requires i < |users|
    ensures
      var before := RemindFirst(users, i, now, windowDays, delivered);
      i < |before| && before[i] == users[i]
      && RemindFirst(users, i + 1, now, windowDays, delivered)
         == before[i := Reminded(users[i], now, windowDays, delivered(i))]
    ensures
      var sent := Sent(users[i], now, windowDays, delivered(i));
      MailOf(users[..i + 1], now, windowDays, delivered)
        == MailOf(users[..i], now, windowDays, delivered) + if sent.Some? then [Mail(i, sent.value)] else []
  {
    assert users[..i + 1][..i] == users[..i];
  }

  lemma RemindedAll(users: seq<User>, now: int, windowDays: nat, delivered: nat -> bool)
    ensures users[..|users|] == users
    ensures RemindFirst(users, |users|, now, windowDays, delivered) == RemindAll(users, now, windowDays, delivered)
  {
    assert users[..|users|] == users;
  }

  class SubscriptionLifecycle {
    const billingEnabled: bool
    var users: seq<User>

    constructor (billingEnabled: bool, users: seq<User>)
      ensures this.billingEnabled == billingEnabled && this.users == users
    {
      this.billingEnabled, this.users := billingEnabled, users;
    }

    /** The body of the loop: one user's turn. */
    method RemindUser(i: nat, now: int, windowDays: nat, delivered: bool) returns (sent: Option<Notice>)
      requires i < |users|
      modifies this`users
      ensures users == old(users)[i := Reminded(old(users[i]), now, windowDays, delivered)]
      ensures sent == Sent(old(users[i]), now, windowDays, delivered)
    {
      sent := None;
      var user := users[i];
      if !Considered(user) { return; }
      var access := ResolveAccessWindow(user, now);
      if access.Some? {
        var daysLeft := DaysUntil(access.value.endsAt, now);
        if daysLeft >= 1 && daysLeft <= windowDays && user.expiringNotifiedFor != Some(access.value.endsAt) {
          if delivered {
            users := users[i := user.(expiringNotifiedFor := Some(access.value.endsAt))];
            sent := Some(Expiring(access.value, daysLeft));
          }
        }
        return;
      }
      var ended := ResolveExpiredAt(user, now);
      if ended.None? || user.expiredNotifiedFor == Some(ended.value.endsAt) { return; }
      if delivered {
        var updated := user.(expiredNotifiedFor := Some(ended.value.endsAt));
        if user.status != Expired && user.status != Cancelled { updated := updated.(status := Expired); }
        users := users[i := updated];
        sent := Some(Ended(ended.value));
      }
    }

    /** `mail` is what went out, in order; the two results count it. */
    method ProcessLifecycleReminders(now: int, windowDays: nat, delivered: nat -> bool)
      returns (expiring: nat, expired: nat, mail: seq<Mail>)
      modifies this`users
      ensures !billingEnabled ==> users == old(users) && mail == []
      ensures billingEnabled ==> users == RemindAll(old(users), now, windowDays, delivered)
      ensures billingEnabled ==> mail == MailOf(old(users), now, windowDays, delivered)
      ensures expiring == CountExpiring(mail) && expiring + expired == |mail|
    {
      expiring, expired, mail := 0, 0, [];
      if !billingEnabled { return; }
      var found := users;
      for i := 0 to |found|
        invariant users == RemindFirst(found, i, now, windowDays, delivered)
        invariant mail == MailOf(found[..i], now, windowDays, delivered)
        invariant expiring == CountExpiring(mail) && expiring + expired == |mail|
      {
        FirstStep(found, i, now, windowDays, delivered);
        var sent := RemindUser(i, now, windowDays, delivered(i));
        if sent.Some? {
          mail := mail + [Mail(i, sent.value)];
          if sent.value.Expiring? { expiring := expiring + 1; } else { expired := expired + 1; }
        }
      }
      RemindedAll(found, now, windowDays, delivered);
    }
  }

  /** A second run at the same instant finds nothing left to send. */
  lemma {:induction false} SecondRunIsSilent(users: seq<User>, now: int, windowDays: nat, delivered: nat -> bool)
    ensures MailOf(RemindAll(users, now, windowDays, i => true), now, windowDays, delivered) == []
  {
    var after := RemindAll(users, now, windowDays, i => true);
    forall i | 0 <= i < |after| ensures Due(after[i], now, windowDays) == None {
      NothingTwice(users[i], now, windowDays);
    }
    NoDueNoMail(after, now, windowDays, delivered);
  }

  lemma NothingTwice(u: User, now: int, windowDays: nat)
    ensures Due(Reminded(u, now, windowDays, true), now, windowDays) == None
  {
  }

  lemma {:induction false} NoDueNoMail(users: seq<User>, now: int, windowDays: nat, delivered: nat -> bool)
    requires forall i | 0 <= i < |users| :: Due(users[i], now, windowDays) == None
    ensures MailOf(users, now, windowDays, delivered) == []
  {
    if users != [] { NoDueNoMail(users[..|users| - 1], now, windowDays, delivered); }
  }

  // ----- one user over many days -----

  datatype Job = Job(now: int, windowDays: nat, delivered: bool)

  predicate ClockRuns(from: int, jobs: seq<Job>)
    decreases jobs
  {
    jobs == [] || (from <= jobs[0].now && ClockRuns(jobs[0].now, jobs[1..]))
  }

  /** The notices a user gets over a run of jobs. */
  function Notices(u: User, jobs: seq<Job>): seq<Notice>
    decreases jobs
  {
    if jobs == [] then []
    else
      var sent := Sent(u, jobs[0].now, jobs[0].windowDays, jobs[0].delivered);
      var rest := Notices(Reminded(u, jobs[0].now, jobs[0].windowDays, jobs[0].delivered), jobs[1..]);
      if sent.Some? then [sent.value] + rest else rest
  }

  function Count(notices: seq<Notice>, expiring: bool): nat {
    if notices == [] then 0
    else (if notices[0].Expiring? == expiring then 1 else 0) + Count(notices[1..], expiring)
  }

  function CountAt(notices: seq<Notice>, expiring: bool, end: int): nat {
    if notices == [] then 0
    else
      (if notices[0].Expiring? == expiring && notices[0].window.endsAt == end then 1 else 0)
      + CountAt(notices[1..], expiring, end)
  }

  /** How many reminders can still go out for the end instant `end`, and in all, after `now`: first the
      paid period is counted down to, then the trial, and the job never goes back. */
  function ExpiringLeftAt(u: User, now: int, end: int): nat {
    if PaidPeriodOpen(u, now) then
      if end == u.periodEnd.value then (if u.expiringNotifiedFor == Some(end) then 0 else 1)
      else if end == u.trialEndsAt then 1 else 0
    else if end == u.trialEndsAt && u.expiringNotifiedFor != Some(end) then 1 else 0
  }

  function ExpiringLeft(u: User, now: int): nat {
    if PaidPeriodOpen(u, now) then (if u.expiringNotifiedFor == u.periodEnd then 1 else 2)
    else if u.expiringNotifiedFor != Some(u.trialEndsAt) then 1 else 0
  }

  predicate PeriodOver(u: User, now: int) { u.periodEnd.Some? && u.periodEnd.value <= now }

  /** The same for notices of expiry: first the trial's end, later the paid period's. */
  function EndedLeftAt(u: User, now: int, end: int): nat {
    if PeriodOver(u, now) || u.periodEnd.None? then
      var last := if u.periodEnd.Some? then u.periodEnd.value else u.trialEndsAt;
      if end == last && u.expiredNotifiedFor != Some(end) then 1 else 0
    else if end == u.trialEndsAt then (if u.expiredNotifiedFor == Some(end) && end != u.periodEnd.value then 0 else 1)
    else if end == u.periodEnd.value then 1 else 0
  }

  function EndedLeft(u: User, now: int): nat {
    if PeriodOver(u, now) || u.periodEnd.None? then
      var last := if u.periodEnd.Some? then u.periodEnd.value else u.trialEndsAt;
      if u.expiredNotifiedFor != Some(last) then 1 else 0
    else if u.expiredNotifiedFor == Some(u.trialEndsAt) then 1 else 2
  }

  lemma {:induction false} AtMost(u: User, from: int, jobs: seq<Job>, end: int)
    requires ClockRuns(from, jobs)
    ensures CountAt(Notices(u, jobs), true, end) <= ExpiringLeftAt(u, from, end)
    ensures Count(Notices(u, jobs), true) <= ExpiringLeft(u, from)
    ensures CountAt(Notices(u, jobs), false, end) <= EndedLeftAt(u, from, end)
    ensures Count(Notices(u, jobs), false) <= EndedLeft(u, from)
    decreases jobs
  {
    if jobs != [] {
      var job := jobs[0];
      var u' := Reminded(u, job.now, job.windowDays, job.delivered);
      AtMost(u', job.now, jobs[1..], end);
      var sent := Sent(u, job.now, job.windowDays, job.delivered);
      if sent.Some? { assert ([sent.value] + Notices(u', jobs[1..]))[1..] == Notices(u', jobs[1..]); }
    }
  }

  /** Over any run of jobs with a clock that does not go back, a user whom nothing else touches gets at
      most one reminder and at most one notice of expiry for each end instant, and at most two of each. */
  lemma EachNoticeAtMostOnce(u: User, jobs: seq<Job>, end: int)
    requires jobs != [] ==> ClockRuns(jobs[0].now, jobs)
    ensures CountAt(Notices(u, jobs), true, end) <= 1 && CountAt(Notices(u, jobs), false, end) <= 1
    ensures Count(Notices(u, jobs), true) <= 2 && Count(Notices(u, jobs), false) <= 2
  {
    if jobs != [] { AtMost(u, jobs[0].now, jobs, end); }
  }
}
