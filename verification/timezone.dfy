/**
 * Local date and time to UTC.  Instants are whole minutes since the epoch, and a zone is its offset
 * from UTC, in minutes, at each instant.
 */
module Timezone {
  import opened Calendar
  import opened CorrectionLoop

  /** What `Intl.DateTimeFormat` reads off a clock in the zone: the date and the minute of the day. */
  datatype Parts = Parts(date: Date, minute: int)

  function PartsOf(reading: int): Parts { Parts(DateOf(reading / DAY), reading % DAY) }

  function ZonedParts(zone: Zone, utc: int): Parts { PartsOf(Reading(zone, utc)) }

  /** The first guess: the wanted wall clock taken as UTC. */
  function Naive(target: Parts): int { DayNumber(target.date) * DAY + target.minute }

  /** The correction of one pass.  It compares days of the month, whatever the month. */
  function Diff(parts: Parts, target: Parts): int {
    (parts.date.day - target.date.day) * DAY + (parts.minute - target.minute)
  }

  /** The instant with `passes` attempts to go. */
  function Settle(target: Parts, zone: Zone, utc: int, passes: nat): int
    decreases passes, target
  {
    if passes == 0 then utc
    else
      var parts := ZonedParts(zone, utc);
      if parts == target then utc else Settle(target, zone, utc - Diff(parts, target), passes - 1)
  }

  /** The same over any clock. */
  function SettleBy(target: Parts, read: int -> Parts, utc: int, passes: nat): int
    decreases passes, target
  {
    if passes == 0 then utc
    else
      var parts := read(utc);
      if parts == target then utc else SettleBy(target, read, utc - Diff(parts, target), passes - 1)
  }

  lemma {:induction false} SettleByZone(target: Parts, zone: Zone, utc: int, passes: nat)
    ensures SettleBy(target, u => ZonedParts(zone, u), utc, passes) == Settle(target, zone, utc, passes)
    decreases passes
  {
    if passes > 0 && ZonedParts(zone, utc) != target {
      SettleByZone(target, zone, utc - Diff(ZonedParts(zone, utc), target), passes - 1);
    }
  }

  const ATTEMPTS := 6

  function Convert(target: Parts, zone: Zone): int { Settle(target, zone, Naive(target), ATTEMPTS) }

  method ZonedLocalDateTimeToUtc(target: Parts, zone: Zone) returns (utc: int)
    ensures utc == Convert(target, zone)
  {
    SettleByZone(target, zone, Naive(target), ATTEMPTS);
    utc := CorrectFrom(target, u => ZonedParts(zone, u), Naive(target), ATTEMPTS);
  }

  /** The loop: corrects until the clock reads the target or the attempts are used up. */
  method CorrectFrom(target: Parts, read: int -> Parts, guess: int, attempts: nat) returns (utc: int)
    ensures utc == SettleBy(target, read, guess, attempts)
  {
    utc := guess;
    var attempt := 0;
    while attempt < attempts
      invariant 0 <= attempt <= attempts
      invariant SettleBy(target, read, utc, attempts - attempt) == SettleBy(target, read, guess, attempts)
    {
      var parts := read(utc);
      var dayDelta := parts.date.day - target.date.day;
      var diffMinutes := dayDelta * DAY + (parts.minute - target.minute);
      if diffMinutes == 0 && parts.date.year == target.date.year && parts.date.month == target.date.month
        && parts.date.day == target.date.day
      {
        return;
      }
      utc := utc - diffMinutes;
      attempt := attempt + 1;
    }
  }

  // ----- the calendar keeps the laws of the loop -----

  predicate ValidParts(p: Parts) { ValidDate(p.date) && 0 <= p.minute < DAY }

  function MonthIndex(d: Date): int { 12 * d.year + d.month - 1 }

  /** The month a clock reading falls in. */
  function ReadMonth(reading: int): int { MonthOf(reading / DAY) }

  /** The clock reads past the target's month from its last days, or before it from its first day. */
  predicate Astray(target: Parts, reading: int) {
    || (ReadMonth(reading) > MonthIndex(target.date) && target.date.day >= 2)
    || (ReadMonth(reading) < MonthIndex(target.date) && target.date.day == 1)
  }

  function TargetOf(target: Parts): Target {
    Target(Naive(target), r => Diff(PartsOf(r), target), r => ReadMonth(r) == MonthIndex(target.date),
           r => Astray(target, r))
  }

  lemma NaiveReads(target: Parts)
    requires ValidParts(target)
    ensures Naive(target) / DAY == DayNumber(target.date) && Naive(target) % DAY == target.minute
    ensures ReadMonth(Naive(target)) == MonthIndex(target.date)
  {
    MonthOfIsUnique(DayNumber(target.date), MonthIndex(target.date));
  }

  lemma PartsRoundTrip(reading: int, target: Parts)
    requires ValidParts(target)
    ensures PartsOf(reading) == target <==> reading == Naive(target)
  {
    NaiveReads(target);
    DateRoundTrip(target.date);
    DayRoundTrip(reading / DAY);
  }

  /** The correction is the true distance, short by the distance between the two months' first days. */
  lemma DiffIs(reading: int, target: Parts)
    requires ValidParts(target)
    ensures Diff(PartsOf(reading), target)
      == reading - Naive(target) - DAY * (MonthStart(ReadMonth(reading)) - MonthStart(MonthIndex(target.date)))
  {
    var day := reading / DAY;
    assert PartsOf(reading).date.day == day - MonthStart(ReadMonth(reading)) + 1;
    assert reading == day * DAY + reading % DAY;
  }

  /** A reading less than a day off that is not in the month is astray. */
  lemma NearbyOrAstray(target: Parts, reading: int)
    requires ValidParts(target) && -DAY < reading - Naive(target) < DAY
    ensures ReadMonth(reading) == MonthIndex(target.date) || Astray(target, reading)
  {
    NaiveReads(target);
    var day := DayNumber(target.date);
    if target.date.day == 1 {
      MonthOfIsUnique(day + 1, MonthIndex(target.date));
      MonthOfIsMonotone(reading / DAY, day + 1);
    } else {
      MonthOfIsUnique(day - 1, MonthIndex(target.date));
      MonthOfIsMonotone(day - 1, reading / DAY);
    }
  }

  /** From an astray reading the next one lands on the same day and time of that wrong month, give or
      take a change of offset, and is astray again. */
  lemma AstrayAgain(target: Parts, reading: int, change: int)
    requires ValidParts(target) && Astray(target, reading) && -DAY < change < DAY
    ensures Astray(target, reading - Diff(PartsOf(reading), target) + change)
  {
    var next := reading - Diff(PartsOf(reading), target) + change;
    var m := ReadMonth(reading);
    var start := MonthStart(m);
    DiffIs(reading, target);
    assert next == (start + target.date.day - 1) * DAY + target.minute + change;
    if target.date.day == 1 {
      assert next / DAY <= start + 1;
      MonthOfIsUnique(start + 1, m);
      MonthOfIsMonotone(next / DAY, start + 1);
    } else {
      assert start <= next / DAY;
      MonthOfIsUnique(start, m);
      MonthOfIsMonotone(start, next / DAY);
    }
  }

  lemma CalendarIsLawful(target: Parts)
    requires ValidParts(target)
    ensures Lawful(TargetOf(target))
  {
    var t := TargetOf(target);
    NaiveReads(target);
    forall r | t.inMonth(r) ensures t.fix(r) == r - t.local { DiffIs(r, target); }
    forall r | -DAY < r - t.local < DAY ensures t.inMonth(r) || t.astray(r) { NearbyOrAstray(target, r); }
    forall r, change | t.astray(r) && -DAY < change < DAY ensures t.astray(Corrected(t, r, change)) {
      AstrayAgain(target, r, change);
    }
  }

  /** Returning early changes nothing: a clock that reads the target needs no correction. */
  lemma {:induction false} SettleIsLoop(target: Parts, zone: Zone, utc: int, passes: nat)
    requires ValidParts(target)
    ensures Settle(target, zone, utc, passes) == Loop(TargetOf(target), zone, utc, passes)
    decreases passes
  {
    if passes > 0 {
      if ZonedParts(zone, utc) == target {
        CalendarIsLawful(target);
        PartsRoundTrip(Reading(zone, utc), target);
        Stays(TargetOf(target), zone, utc, passes);
      } else {
        SettleIsLoop(target, zone, utc - Diff(ZonedParts(zone, utc), target), passes - 1);
      }
    }
  }

  // ----- what the conversion returns -----

  predicate Shows(zone: Zone, utc: int, target: Parts) { ZonedParts(zone, utc) == target }

  lemma ShowsIff(zone: Zone, utc: int, target: Parts)
    requires ValidParts(target)
    ensures Shows(zone, utc, target) <==> Reading(zone, utc) == Naive(target)
  {
    PartsRoundTrip(Reading(zone, utc), target);
  }

  /** In a zone that changes its offset at most once within a day of the target, the conversion returns an
      instant that reads back as the target if and only if the zone shows the target at all and the two
      probes read in its month; it has it by the third of its six passes. */
  lemma ConvertExactIff(target: Parts, zone: Zone, at: int, before: int, after: int)
    requires ValidParts(target) && Mild(zone) && OneChangeNear(zone, Naive(target), at, before, after)
    ensures Shows(zone, Convert(target, zone), target)
        <==> !InGap(Naive(target), at, before, after) && ProbesInMonth(TargetOf(target), zone)
    ensures Shows(zone, Convert(target, zone), target)
        ==> Convert(target, zone) == Settle(target, zone, Naive(target), 2)
  {
    SettleExactIff(target, zone, at, before, after, ATTEMPTS - 2);
    ShowsIff(zone, Convert(target, zone), target);
    if Shows(zone, Convert(target, zone), target) { ThirdPassHasIt(target, zone, at, before, after); }
  }

  lemma ThirdPassHasIt(target: Parts, zone: Zone, at: int, before: int, after: int)
    requires ValidParts(target) && Mild(zone) && OneChangeNear(zone, Naive(target), at, before, after)
    requires !InGap(Naive(target), at, before, after) && ProbesInMonth(TargetOf(target), zone)
    ensures
      var local := Naive(target);
      Settle(target, zone, local, 2) == local - zone(local - zone(local))
  {
    SettleExactIff(target, zone, at, before, after, 0);
  }

  lemma SettleExactIff(target: Parts, zone: Zone, at: int, before: int, after: int, passes: nat)
    requires ValidParts(target) && Mild(zone) && OneChangeNear(zone, Naive(target), at, before, after)
    ensures
      var local, end := Naive(target), Settle(target, zone, Naive(target), passes + 2);
      && (Reading(zone, end) == local <==>
            !InGap(local, at, before, after) && ProbesInMonth(TargetOf(target), zone))
      && (Reading(zone, end) == local ==> end == local - zone(local - zone(local)))
  {
    CalendarIsLawful(target);
    SettleIsLoop(target, zone, Naive(target), passes + 2);
    ExactIff(TargetOf(target), zone, at, before, after, passes);
  }

  // ----- constant offsets -----

  /** By how many days the conversion of a time at a constant offset is off: nothing, unless the probe
      reads in the month before or after. */
  function Slip(date: Date, minute: int, offset: int): int {
    var m := MonthIndex(date);
    if date.day == 1 && minute + offset < 0 then 0 - MonthLength(m - 1)
    else if date.day == MonthLength(m) && minute + offset >= DAY then
      if date.day <= MonthLength(m + 1) then MonthLength(m) else MonthLength(m) + MonthLength(m + 1)
    else 0
  }

  /** Where a correction from a probe in month `m` leads: the target's day and time in that month. */
  function Landing(target: Parts, offset: int, m: int): int {
    Naive(target) - offset + DAY * (MonthStart(m) - MonthStart(MonthIndex(target.date)))
  }

  lemma FixIs(target: Parts, reading: int)
    requires ValidParts(target)
    ensures TargetOf(target).fix(reading)
      == reading - Naive(target) - DAY * (MonthStart(ReadMonth(reading)) - MonthStart(MonthIndex(target.date)))
  {
    DiffIs(reading, target);
  }

  /** In a month without that day the clock reads in the next one. */
  lemma LandingReads(target: Parts, offset: int, m: int)
    requires ValidParts(target)
    ensures ReadMonth(Landing(target, offset, m) + offset) == RestMonth(target.date.day, m)
  {
    var day := MonthStart(m) + target.date.day - 1;
    assert (Landing(target, offset, m) + offset) / DAY == day;
    NextMonthStart(m);
    MonthOfIsUnique(day, RestMonth(target.date.day, m));
  }

  lemma LandingFix(target: Parts, offset: int, m: int)
    requires ValidParts(target)
    requires target.date.day > MonthLength(m) ==> target.date.day <= MonthLength(m) + MonthLength(m + 1)
    ensures TargetOf(target).fix(Landing(target, offset, m) + offset)
         == Landing(target, offset, m) - Landing(target, offset, RestMonth(target.date.day, m))
  {
    LandingReads(target, offset, m);
    FixIs(target, Landing(target, offset, m) + offset);
  }

  /** The month the first probe reads in. */
  function ProbeMonth(target: Parts, offset: int): int {
    var m := MonthIndex(target.date);
    if target.date.day == 1 && target.minute + offset < 0 then m - 1
    else if target.date.day == MonthLength(m) && target.minute + offset >= DAY then m + 1
    else m
  }

  /** The month the clock comes to rest in after a probe in month `m`: the next one if that lacks the day. */
  function RestMonth(day: int, m: int): int { if day <= MonthLength(m) then m else m + 1 }

  lemma FirstProbe(target: Parts, offset: int)
    requires ValidParts(target) && -DAY < offset < DAY
    ensures ReadMonth(Naive(target) + offset) == ProbeMonth(target, offset)
  {
    var m, day, sum := MonthIndex(target.date), DayNumber(target.date), target.minute + offset;
    assert (Naive(target) + offset) / DAY == if sum < 0 then day - 1 else if sum >= DAY then day + 1 else day;
    NextMonthStart(m - 1);
    NextMonthStart(m);
    if target.date.day == 1 && sum < 0 {
      MonthOfIsUnique(day - 1, m - 1);
    } else if target.date.day == MonthLength(m) && sum >= DAY {
      MonthOfIsUnique(day + 1, m + 1);
    } else {
      MonthOfIsUnique((Naive(target) + offset) / DAY, m);
    }
  }

  /** The instants the loop reads the zone at while the offset is `offset`: the guess and where its first two
      corrections lead. */
  predicate Visits(target: Parts, offset: int, utc: int) {
    var first := ProbeMonth(target, offset);
    || utc == Naive(target) || utc == Landing(target, offset, first)
    || utc == Landing(target, offset, RestMonth(target.date.day, first))
  }

  /** The zone has this offset wherever the loop reads it. */
  ghost predicate Keeps(target: Parts, zone: Zone, offset: int) {
    forall utc | Visits(target, offset, utc) :: zone(utc) == offset
  }

  lemma FirstFix(target: Parts, t: Target, offset: int, first: int, a: int)
    requires ValidParts(target) && t == TargetOf(target) && first == ReadMonth(Naive(target) + offset)
    requires a == Landing(target, offset, first)
    ensures t.fix(Naive(target) + offset) == Naive(target) - a
  {
    FixIs(target, Naive(target) + offset);
  }

  lemma NextFix(target: Parts, t: Target, offset: int, m: int, a: int, b: int)
    requires ValidParts(target) && t == TargetOf(target)
    requires target.date.day <= MonthLength(RestMonth(target.date.day, m))
    requires a == Landing(target, offset, m) && b == Landing(target, offset, RestMonth(target.date.day, m))
    ensures t.fix(a + offset) == a - b
  {
    LandingFix(target, offset, m);
  }

  /** At most two corrections move the clock. */
  lemma LandingPath(target: Parts, zone: Zone, offset: int, first: int, a: int, b: int)
    requires ValidParts(target) && first == ReadMonth(Naive(target) + offset)
    requires target.date.day <= MonthLength(RestMonth(target.date.day, first))
    requires a == Landing(target, offset, first)
    requires b == Landing(target, offset, RestMonth(target.date.day, first))
    requires zone(Naive(target)) == zone(a) == zone(b) == offset
    ensures Path(TargetOf(target), zone, offset, Naive(target), a, b)
  {
    var t, rest := TargetOf(target), RestMonth(target.date.day, first);
    FirstFix(target, t, offset, first, a);
    NextFix(target, t, offset, first, a, b);
    NextFix(target, t, offset, rest, b, b);
  }

  lemma SettleLands(target: Parts, zone: Zone, offset: int, a: int, b: int, passes: nat)
    requires ValidParts(target) && Path(TargetOf(target), zone, offset, Naive(target), a, b)
    ensures Settle(target, zone, Naive(target), passes + 2) == b
  {
    SettleIsLoop(target, zone, Naive(target), passes + 2);
    PathEnds(TargetOf(target), zone, offset, Naive(target), a, b, passes);
  }

  /** What the conversion returns, for every date and time, in a zone that keeps its offset wherever it is read. */
  lemma KeptConvertIs(target: Parts, zone: Zone, offset: int)
    requires ValidParts(target) && -DAY < offset < DAY && Keeps(target, zone, offset)
    ensures Convert(target, zone) == Naive(target) - offset + DAY * Slip(target.date, target.minute, offset)
  {
    var first := ProbeMonth(target, offset);
    var a, b := Landing(target, offset, first), Landing(target, offset, RestMonth(target.date.day, first));
    FirstProbe(target, offset);
    LandsBySlip(target, offset, first);
    assert Visits(target, offset, Naive(target)) && Visits(target, offset, a) && Visits(target, offset, b);
    LandingPath(target, zone, offset, first, a, b);
    SettleLands(target, zone, offset, a, b, ATTEMPTS - 2);
  }

  /** At a constant offset it is so everywhere. */
  lemma FixedConvertIs(target: Parts, offset: int)
    requires ValidParts(target) && -DAY < offset < DAY
    ensures Convert(target, Fixed(offset))
         == Naive(target) - offset + DAY * Slip(target.date, target.minute, offset)
  {
    KeptConvertIs(target, Fixed(offset), offset);
  }

  /** The same on the Gregorian calendar: days by division, minutes, offset. */
  lemma FixedConvertIsCivil(target: Parts, offset: int)
    requires ValidParts(target) && -DAY < offset < DAY
    ensures
      var d := target.date;
      Convert(target, Fixed(offset)) == CivilDays(d.year, d.month, d.day) * DAY + target.minute - offset
        + DAY * Slip(d, target.minute, offset)
  {
    FixedConvertIs(target, offset);
    DayNumberIsCivil(target.date);
  }

  lemma LandsBySlip(target: Parts, offset: int, first: int)
    requires ValidParts(target) && -DAY < offset < DAY && first == ProbeMonth(target, offset)
    ensures target.date.day <= MonthLength(RestMonth(target.date.day, first))
    ensures Landing(target, offset, RestMonth(target.date.day, first))
         == Naive(target) - offset + DAY * Slip(target.date, target.minute, offset)
  {
    var m := MonthIndex(target.date);
    if first == m + 1 && target.date.day > MonthLength(first) { DayComesBack(first, target.date.day); }
    MonthsApart(m);
  }

  lemma MonthsApart(m: int)
    ensures MonthStart(m - 1) == MonthStart(m) - MonthLength(m - 1)
    ensures MonthStart(m + 1) == MonthStart(m) + MonthLength(m)
    ensures MonthStart(m + 2) == MonthStart(m) + MonthLength(m) + MonthLength(m + 1)
  {
    NextMonthStart(m - 1);
    NextMonthStart(m);
    NextMonthStart(m + 1);
  }

  /** After a month without a day comes one with it. */
  lemma DayComesBack(m: int, day: int)
    requires 1 <= day <= 31 && day > MonthLength(m)
    ensures day <= MonthLength(m + 1)
  {
  }

  /** With a constant offset only the first probe matters, and the second pass has the target. */
  lemma FixedConvertExactIff(target: Parts, offset: int)
    requires ValidParts(target) && -DAY < offset < DAY
    ensures Shows(Fixed(offset), Convert(target, Fixed(offset)), target)
        <==> ReadMonth(Naive(target) + offset) == MonthIndex(target.date)
    ensures ReadMonth(Naive(target) + offset) == MonthIndex(target.date)
        ==> Convert(target, Fixed(offset)) == Settle(target, Fixed(offset), Naive(target), 1) == Naive(target) - offset
  {
    FixedConvertIs(target, offset);
    FirstProbe(target, offset);
    ShowsIff(Fixed(offset), Convert(target, Fixed(offset)), target);
    if ReadMonth(Naive(target) + offset) == MonthIndex(target.date) { SettleStepIs(target, offset); }
  }

  lemma SettleStepIs(target: Parts, offset: int)
    requires ValidParts(target) && ReadMonth(Naive(target) + offset) == MonthIndex(target.date)
    ensures Settle(target, Fixed(offset), Naive(target), 1) == Naive(target) - offset
  {
    DiffIs(Naive(target) + offset, target);
    PartsRoundTrip(Naive(target) + offset, target);
  }

  /** 18:30 on 31 January in Asia/Kolkata (+05:30) converts to 31 March. */
  lemma KolkataMonthEnd()
    ensures
      var target := Parts(Date(1970, 1, 31), 18 * 60 + 30);
      Shows(Fixed(330), Convert(target, Fixed(330)), Parts(Date(1970, 3, 31), 18 * 60 + 30))
  {
    var target, found := Parts(Date(1970, 1, 31), 1110), Parts(Date(1970, 3, 31), 1110);
    var m := EPOCH_MONTH;
    NextMonthStart(m);
    NextMonthStart(m + 1);
    assert MonthLength(m) == 31 && MonthLength(m + 1) == 28 && MonthLength(m + 2) == 31;
    FixedConvertIs(target, 330);
    ShowsIff(Fixed(330), Convert(target, Fixed(330)), found);
  }

  // ----- zones that change their offset -----

  /** The offset the conversion ends up subtracting, while its probes read in the month.  A time that is
      shown twice is taken before the change if its number lies before the change's, a time that is
      never shown the other way round. */
  function OffsetUsed(local: int, at: int, before: int, after: int): int {
    if local < at + before && local < at + after then before
    else if at + before <= local && at + after <= local then after
    else if InGap(local, at, before, after) then (if local < at then after else before)
    else if local < at then before
    else after
  }

  /** No probe of the loop leaves the month. */
  ghost predicate StaysInMonth(target: Parts, zone: Zone, at: int, before: int, after: int) {
    && ProbesInMonth(TargetOf(target), zone)
    && (InGap(Naive(target), at, before, after) ==>
          ReadMonth(Naive(target) + after - before) == MonthIndex(target.date)
          && ReadMonth(Naive(target) + before - after) == MonthIndex(target.date))
  }

  /** Inside a month every probe stays in it. */
  lemma InsideTheMonth(target: Parts, zone: Zone, at: int, before: int, after: int)
    requires ValidParts(target) && 2 <= target.date.day < MonthLength(MonthIndex(target.date))
    requires Mild(zone) && MildOffsets(before, after)
    ensures StaysInMonth(target, zone, at, before, after)
  {
    var local := Naive(target);
    forall r | local - DAY < r < local + DAY ensures ReadMonth(r) == MonthIndex(target.date) {
      var day := DayNumber(target.date);
      assert day - 1 <= r / DAY <= day + 1;
      MonthOfIsUnique(r / DAY, MonthIndex(target.date));
    }
    assert -DAY < zone(local) < DAY;
    assert -DAY < zone(local - zone(local)) - zone(local) < DAY;
  }

  /** What the conversion returns near a change of offset, times never shown and times shown twice included. */
  lemma ChangeConvertIs(target: Parts, zone: Zone, at: int, before: int, after: int)
    requires ValidParts(target) && Mild(zone) && OneChangeNear(zone, Naive(target), at, before, after)
    requires StaysInMonth(target, zone, at, before, after)
    ensures Convert(target, zone) == Naive(target) - OffsetUsed(Naive(target), at, before, after)
  {
    if InGap(Naive(target), at, before, after) {
      SettleInGap(target, zone, at, before, after, ATTEMPTS - 1);
    } else {
      SettleExactIff(target, zone, at, before, after, ATTEMPTS - 2);
    }
  }

  lemma SettleInGap(target: Parts, zone: Zone, at: int, before: int, after: int, passes: nat)
    requires ValidParts(target) && OneChangeNear(zone, Naive(target), at, before, after)
    requires StaysInMonth(target, zone, at, before, after) && InGap(Naive(target), at, before, after)
    ensures
      var first := zone(Naive(target));
      Settle(target, zone, Naive(target), passes + 1)
        == Naive(target) - (if passes % 2 == 0 then first else before + after - first)
  {
    SettleIsLoop(target, zone, Naive(target), passes + 1);
    LoopInGap(target, TargetOf(target), zone, at, before, after, passes);
  }

  lemma LoopInGap(target: Parts, t: Target, zone: Zone, at: int, before: int, after: int, passes: nat)
    requires ValidParts(target) && t == TargetOf(target) && OneChangeNear(zone, Naive(target), at, before, after)
    requires StaysInMonth(target, zone, at, before, after) && InGap(Naive(target), at, before, after)
    ensures
      var first := zone(t.local);
      Loop(t, zone, t.local, passes + 1) == t.local - (if passes % 2 == 0 then first else before + after - first)
  {
    CalendarSwings(target, zone, at, before, after);
    GapResult(t, zone, at, before, after, passes);
  }

  lemma CalendarSwings(target: Parts, zone: Zone, at: int, before: int, after: int)
    requires ValidParts(target) && OneChangeNear(zone, Naive(target), at, before, after)
    requires StaysInMonth(target, zone, at, before, after) && InGap(Naive(target), at, before, after)
    ensures Swings(TargetOf(target), zone, at, before, after)
  {
    InGapMonths(target, zone, at, before, after);
    CalendarIsLawful(target);
  }

  lemma InGapMonths(target: Parts, zone: Zone, at: int, before: int, after: int)
    requires StaysInMonth(target, zone, at, before, after) && InGap(Naive(target), at, before, after)
    ensures
      var t := TargetOf(target);
      && t.local == Naive(target) && t.inMonth(Reading(zone, t.local))
      && t.inMonth(t.local + after - before) && t.inMonth(t.local + before - after)
  {
  }

  /** Between which two local times the conversion steps back or stands still: from the last time before a
      gap into its first half, or from its second half to the first time after it, half meaning the times
      numbered before and after the change; and only over a distance no longer than the gap. */
  predicate Stumbles(a: int, b: int, at: int, before: int, after: int) {
    b - a <= after - before && (a < at + before <= b < at || at <= a < at + after <= b)
  }

  /** The later of two local times gets the later instant unless the conversion stumbles between them. */
  lemma LaterIff(a: int, b: int, at: int, before: int, after: int)
    requires a < b
    ensures a - OffsetUsed(a, at, before, after) < b - OffsetUsed(b, at, before, after)
        <==> !Stumbles(a, b, at, before, after)
  {
  }

  /** The same where the two may coincide. */
  predicate FallsBack(a: int, b: int, at: int, before: int, after: int) {
    b - a < after - before && (a < at + before <= b < at || at <= a < at + after <= b)
  }

  lemma NotEarlierIff(a: int, b: int, at: int, before: int, after: int)
    requires a <= b
    ensures a - OffsetUsed(a, at, before, after) <= b - OffsetUsed(b, at, before, after)
        <==> !FallsBack(a, b, at, before, after)
  {
  }

  // ----- the local day -----

  /** The next calendar day, by way of `Date.UTC(y, m - 1, d + 1)`. */
  function NextDate(d: Date): Date { DateOf(DayNumber(d) + 1) }

  function DayStart(date: Date, zone: Zone): int { Convert(Parts(date, 0), zone) }

  function DayEnd(date: Date, zone: Zone): int { Convert(Parts(NextDate(date), 0), zone) }

  lemma MidnightExactIff(date: Date, offset: int)
    requires ValidDate(date) && -DAY < offset < DAY
    ensures Convert(Parts(date, 0), Fixed(offset)) == DayNumber(date) * DAY - offset <==> offset >= 0 || date.day != 1
  {
    FixedConvertIs(Parts(date, 0), offset);
  }

  lemma NextDateIsFirstIff(date: Date)
    requires ValidDate(date)
    ensures ValidDate(NextDate(date)) && DayNumber(NextDate(date)) == DayNumber(date) + 1
    ensures NextDate(date).day == 1 <==> date.day == MonthLength(MonthIndex(date))
  {
    var m, next := MonthIndex(date), DayNumber(date) + 1;
    assert next == MonthStart(m) + date.day;
    DayRoundTrip(next);
    NextDay(m, date.day);
    assert NextDate(date).day == next - MonthStart(MonthOf(next)) + 1;
  }

  lemma NextDay(m: int, day: int)
    requires 1 <= day <= MonthLength(m)
    ensures MonthStart(MonthOf(MonthStart(m) + day))
         == if day == MonthLength(m) then MonthStart(m) + day else MonthStart(m)
  {
    NextMonthStart(m);
    MonthOfIsUnique(MonthStart(m) + day, if day == MonthLength(m) then m + 1 else m);
  }

  /** The day after the last one of a month is in the next month. */
  lemma NextDateMonth(date: Date)
    requires ValidDate(date) && date.day == MonthLength(MonthIndex(date))
    ensures MonthIndex(NextDate(date)) == MonthIndex(date) + 1
  {
    var m := MonthIndex(date);
    NextMonthStart(m);
    MonthOfIsUnique(DayNumber(date) + 1, m + 1);
  }

  /** Where the day range ends at a constant offset: a month too early on the last day of a month, west of
      Greenwich. */
  lemma DayEndIs(date: Date, offset: int)
    requires ValidDate(date) && -DAY < offset < DAY
    ensures
      var m := MonthIndex(date);
      DayEnd(date, Fixed(offset)) == (DayNumber(date) + 1) * DAY - offset
        - (if date.day == MonthLength(m) && offset < 0 then DAY * MonthLength(m) else 0)
  {
    NextDateIsFirstIff(date);
    if date.day == MonthLength(MonthIndex(date)) { NextDateMonth(date); }
    FixedConvertIs(Parts(NextDate(date), 0), offset);
  }

  /** The day range runs from local midnight to local midnight, except west of Greenwich on the first
      and on the last day of a month. */
  lemma DayRangeExactIff(date: Date, offset: int)
    requires ValidDate(date) && -DAY < offset < DAY
    ensures DayStart(date, Fixed(offset)) == DayNumber(date) * DAY - offset
         && DayEnd(date, Fixed(offset)) == (DayNumber(date) + 1) * DAY - offset
        <==> offset >= 0 || (date.day != 1 && date.day != MonthLength(MonthIndex(date)))
  {
    NextDateIsFirstIff(date);
    MidnightExactIff(date, offset);
    MidnightExactIff(NextDate(date), offset);
  }

  /** Near a change of offset the day range shows the two local midnights if and only if the zone has both
      and the probes for each stay in the month of its date. */
  lemma DayRangeShowsIff(date: Date, zone: Zone, at: int, before: int, after: int)
    requires ValidDate(date) && Mild(zone)
    requires OneChangeNear(zone, DayNumber(date) * DAY, at, before, after)
    requires OneChangeNear(zone, (DayNumber(date) + 1) * DAY, at, before, after)
    ensures
      var first, next := Parts(date, 0), Parts(NextDate(date), 0);
      (Shows(zone, DayStart(date, zone), first) && Shows(zone, DayEnd(date, zone), next)) <==>
      (&& !InGap(Naive(first), at, before, after) && ProbesInMonth(TargetOf(first), zone)
       && !InGap(Naive(next), at, before, after) && ProbesInMonth(TargetOf(next), zone))
  {
    NextDateIsFirstIff(date);
    ConvertExactIff(Parts(date, 0), zone, at, before, after);
    ConvertExactIff(Parts(NextDate(date), 0), zone, at, before, after);
  }
}
