/** When the daily job writes to a user, by the dates of the billing record, and that it does write. */
module NoticeDates {
  import opened Wrappers
  import opened BillingAccess
  import opened Lifecycle

  /** A paid period runs at `now`. */
  predicate PeriodRuns(u: User, now: int) {
    u.status in {Active, PastDue, Cancelled} && u.periodEnd.Some? && now < u.periodEnd.value
  }

  /** The job looks at this user. */
  predicate Seen(u: User) { !u.isSuperAdmin && u.status in {Trial, Active, PastDue, Cancelled, Expired} }

  /** `end` is when the access that is open at `now` ends, and it is at most `windowDays` days ahead. */
  predicate EndsSoon(u: User, now: int, windowDays: nat, end: int) {
    && Seen(u) && end == (if PeriodRuns(u, now) then u.periodEnd.value else u.trialEndsAt)
    && now < end <= now + windowDays * DAY_MS
  }

  /** `end` is when access ended: no period runs, the trial is over, and a period that is over goes before it. */
  predicate HasEnded(u: User, now: int, end: int) {
    && Seen(u) && !PeriodRuns(u, now) && u.trialEndsAt <= now
    && end == (if u.periodEnd.Some? && u.periodEnd.value <= now then u.periodEnd.value else u.trialEndsAt)
  }

  predicate IsReminder(n: Option<Notice>, end: int) { n.Some? && n.value.Expiring? && n.value.window.endsAt == end }

  predicate IsExpiry(n: Option<Notice>, end: int) { n.Some? && n.value.Ended? && n.value.window.endsAt == end }

  /** A reminder of `end` is due exactly when access ends then, within the window, and it was not yet reminded of.  It
      names the right kind of access and the days left, rounded up. */
  lemma ReminderDueIff(u: User, now: int, windowDays: nat, end: int)
    ensures IsReminder(Due(u, now, windowDays), end) <==>
      EndsSoon(u, now, windowDays, end) && u.expiringNotifiedFor != Some(end)
    ensures IsReminder(Due(u, now, windowDays), end) ==>
      var n := Due(u, now, windowDays).value;
      (n.window.kind == SubscriptionWindow <==> PeriodRuns(u, now))
      && (n.daysLeft - 1) * DAY_MS < end - now <= n.daysLeft * DAY_MS
  {
    DaysUntilIs(end, now);
  }

  /** A notice of expiry for `end` is due exactly when access ended then and no notice of it was sent. */
  lemma ExpiryDueIff(u: User, now: int, windowDays: nat, end: int)
    ensures IsExpiry(Due(u, now, windowDays), end) <==> HasEnded(u, now, end) && u.expiredNotifiedFor != Some(end)
  {
  }

  /** What a turn writes: which end was told, and `expired` unless the subscription was cancelled; without a delivered
      notice, nothing. */
  lemma TurnWrites(u: User, now: int, windowDays: nat, delivered: bool)
    ensures
      var due, after := Due(u, now, windowDays), Reminded(u, now, windowDays, delivered);
      if !delivered || due.None? then after == u
      else if due.value.Expiring? then after == u.(expiringNotifiedFor := Some(due.value.window.endsAt))
      else after == u.(expiredNotifiedFor := Some(due.value.window.endsAt),
                       status := if u.status == Cancelled then Cancelled else Expired)
  {
  }

  // ----- the job over all users -----

  lemma {:induction false} MailIff(users: seq<User>, now: int, windowDays: nat, delivered: nat -> bool, mail: Mail)
    ensures mail in MailOf(users, now, windowDays, delivered) <==>
      mail.userId < |users| && delivered(mail.userId) && Due(users[mail.userId], now, windowDays) == Some(mail.notice)
    decreases users
  {
    if users != [] {
      var n := |users| - 1;
      MailIff(users[..n], now, windowDays, delivered, mail);
    }
  }

  /** A run of the job reminds exactly the users whose access ends within the window and who were not yet told. */
  lemma JobReminds(users: seq<User>, i: nat, now: int, windowDays: nat, delivered: nat -> bool, end: int)
    requires i < |users| && delivered(i)
    ensures (exists n :: Mail(i, n) in MailOf(users, now, windowDays, delivered) && IsReminder(Some(n), end)) <==>
      EndsSoon(users[i], now, windowDays, end) && users[i].expiringNotifiedFor != Some(end)
    ensures (exists n :: Mail(i, n) in MailOf(users, now, windowDays, delivered) && IsExpiry(Some(n), end)) <==>
      HasEnded(users[i], now, end) && users[i].expiredNotifiedFor != Some(end)
  {
    var due := Due(users[i], now, windowDays);
    ReminderDueIff(users[i], now, windowDays, end);
    ExpiryDueIff(users[i], now, windowDays, end);
    forall n ensures Mail(i, n) in MailOf(users, now, windowDays, delivered) <==> due == Some(n) {
      MailIff(users, now, windowDays, delivered, Mail(i, n));
    }
  }

  // ----- one user over many days -----

  /** An end that is soon later is soon, or not yet near, after a turn now. */
  lemma StillEndsSoon(u: User, job: Job, later: int, windowDays: nat, end: int)
    requires job.now <= later && EndsSoon(u, later, windowDays, end) && u.expiringNotifiedFor != Some(end)
    ensures
      var after := Reminded(u, job.now, job.windowDays, job.delivered);
      EndsSoon(after, later, windowDays, end)
      && (after.expiringNotifiedFor != Some(end) || IsReminder(Sent(u, job.now, job.windowDays, job.delivered), end))
  {
  }

  lemma StillHasEnded(u: User, job: Job, later: int, end: int)
    requires job.now <= later && HasEnded(u, later, end) && u.expiredNotifiedFor != Some(end)
    ensures
      var after := Reminded(u, job.now, job.windowDays, job.delivered);
      HasEnded(after, later, end)
      && (after.expiredNotifiedFor != Some(end) || IsExpiry(Sent(u, job.now, job.windowDays, job.delivered), end))
  {
  }

  lemma FirstNotice(u: User, jobs: seq<Job>, expiring: bool, end: int)
    requires jobs != []
    ensures
      var sent := Sent(u, jobs[0].now, jobs[0].windowDays, jobs[0].delivered);
      var after := Reminded(u, jobs[0].now, jobs[0].windowDays, jobs[0].delivered);
      CountAt(Notices(u, jobs), expiring, end) == CountAt(Notices(after, jobs[1..]), expiring, end)
        + if (if expiring then IsReminder(sent, end) else IsExpiry(sent, end)) then 1 else 0
  {
    var sent := Sent(u, jobs[0].now, jobs[0].windowDays, jobs[0].delivered);
    var rest := Notices(Reminded(u, jobs[0].now, jobs[0].windowDays, jobs[0].delivered), jobs[1..]);
    if sent.Some? { assert ([sent.value] + rest)[1..] == rest; }
  }

  lemma LaterJob(from: int, jobs: seq<Job>, j: nat)
    requires ClockRuns(from, jobs) && j < |jobs|
    ensures from <= jobs[j].now
    decreases j
  {
    if j > 0 { LaterJob(jobs[0].now, jobs[1..], j - 1); }
  }

  lemma {:induction false} ReminderComes(u: User, from: int, jobs: seq<Job>, j: nat, end: int)
    requires ClockRuns(from, jobs) && j < |jobs| && jobs[j].delivered
    requires EndsSoon(u, jobs[j].now, jobs[j].windowDays, end) && u.expiringNotifiedFor != Some(end)
    ensures CountAt(Notices(u, jobs), true, end) >= 1
    decreases j
  {
    FirstNotice(u, jobs, true, end);
    if j == 0 {
      ReminderDueIff(u, jobs[0].now, jobs[0].windowDays, end);
    } else {
      var after := Reminded(u, jobs[0].now, jobs[0].windowDays, jobs[0].delivered);
      LaterJob(jobs[0].now, jobs[1..], j - 1);
      StillEndsSoon(u, jobs[0], jobs[j].now, jobs[j].windowDays, end);
      if after.expiringNotifiedFor != Some(end) { ReminderComes(after, jobs[0].now, jobs[1..], j - 1, end); }
    }
  }

  lemma {:induction false} ExpiryComes(u: User, from: int, jobs: seq<Job>, j: nat, end: int)
    requires ClockRuns(from, jobs) && j < |jobs| && jobs[j].delivered
    requires HasEnded(u, jobs[j].now, end) && u.expiredNotifiedFor != Some(end)
    ensures CountAt(Notices(u, jobs), false, end) >= 1
    decreases j
  {
    FirstNotice(u, jobs, false, end);
    if j == 0 {
      ExpiryDueIff(u, jobs[0].now, jobs[0].windowDays, end);
    } else {
      var after := Reminded(u, jobs[0].now, jobs[0].windowDays, jobs[0].delivered);
      LaterJob(jobs[0].now, jobs[1..], j - 1);
      StillHasEnded(u, jobs[0], jobs[j].now, end);
      if after.expiredNotifiedFor != Some(end) { ExpiryComes(after, jobs[0].now, jobs[1..], j - 1, end); }
    }
  }

  /** A user whom nothing else touches and who was not told of `end`: over a run of jobs, one of them delivered while
      `end` is within its window, exactly one reminder of it goes out. */
  lemma OneReminder(u: User, from: int, jobs: seq<Job>, j: nat, end: int)
    requires ClockRuns(from, jobs) && j < |jobs| && jobs[j].delivered
    requires EndsSoon(u, jobs[j].now, jobs[j].windowDays, end) && u.expiringNotifiedFor != Some(end)
    ensures CountAt(Notices(u, jobs), true, end) == 1
  {
    ReminderComes(u, from, jobs, j, end);
    EachNoticeAtMostOnce(u, jobs, end);
  }

  /** And over a run with a delivered job after access has ended, exactly one notice that it has. */
  lemma OneExpiry(u: User, from: int, jobs: seq<Job>, j: nat, end: int)
    requires ClockRuns(from, jobs) && j < |jobs| && jobs[j].delivered
    requires HasEnded(u, jobs[j].now, end) && u.expiredNotifiedFor != Some(end)
    ensures CountAt(Notices(u, jobs), false, end) == 1
  {
    ExpiryComes(u, from, jobs, j, end);
    EachNoticeAtMostOnce(u, jobs, end);
  }
}
