/** Bookable slots: the grid of a day's schedule, minus what active bookings cover. */
module Slots {
  import opened Wrappers
  import opened Calendar
  import opened CorrectionLoop
  import opened Timezone

  datatype TimeSlot = TimeSlot(startsAt: int, endsAt: int)

  /** Times of day are minutes since midnight, as `parseTimeToMinutes` reads them off `HH:mm`. */
  datatype ScheduleWindow = ScheduleWindow(
    dayOfWeek: int, startMinute: int, endMinute: int, slotMinutes: int, isActive: bool)

  datatype BookingStatus = Pending | Confirmed | Cancelled | Completed

  datatype Booking = Booking(userId: nat, resourceId: nat, startsAt: int, endsAt: int, status: BookingStatus)

  predicate Active(s: BookingStatus) { s == Pending || s == Confirmed }

  predicate Overlap(aStart: int, aEnd: int, bStart: int, bEnd: int) { aStart < bEnd && aEnd > bStart }

  predicate Taken(slot: TimeSlot, bookings: seq<Booking>) {
    exists b :: b in bookings && Active(b.status) && Overlap(slot.startsAt, slot.endsAt, b.startsAt, b.endsAt)
  }

  type LocalClock = int -> int

  /** The instant of each minute of a local date. */
  function ClockOf(date: Date, zone: Zone): LocalClock { minute => Convert(Parts(date, minute), zone) }

  function SlotAt(clock: LocalClock, s: ScheduleWindow, minute: int): TimeSlot {
    TimeSlot(clock(minute), clock(minute + s.slotMinutes))
  }

  /** The free slots from minute `cursor` on. */
  function FreeFrom(clock: LocalClock, s: ScheduleWindow, cursor: int, bookings: seq<Booking>): seq<TimeSlot>
    requires s.slotMinutes >= 1
    decreases s.endMinute - cursor
  {
    if cursor + s.slotMinutes > s.endMinute then []
    else
      var rest := FreeFrom(clock, s, cursor + s.slotMinutes, bookings);
      if Taken(SlotAt(clock, s, cursor), bookings) then rest else [SlotAt(clock, s, cursor)] + rest
  }

  predicate Usable(s: ScheduleWindow) { s.slotMinutes >= 1 && s.endMinute > s.startMinute }

  function FreeSlots(clock: LocalClock, s: ScheduleWindow, bookings: seq<Booking>): seq<TimeSlot> {
    if Usable(s) then FreeFrom(clock, s, s.startMinute, bookings) else []
  }

  lemma FreeFromStep(clock: LocalClock, s: ScheduleWindow, cursor: int, bookings: seq<Booking>, found: seq<TimeSlot>,
                     slot: TimeSlot)
    requires s.slotMinutes >= 1 && cursor + s.slotMinutes <= s.endMinute && slot == SlotAt(clock, s, cursor)
    ensures found + FreeFrom(clock, s, cursor, bookings)
        == (if Taken(slot, bookings) then found else found + [slot])
           + FreeFrom(clock, s, cursor + s.slotMinutes, bookings)
  {
  }

  /** What has been found, with the free slots still ahead, is the whole listing. */
  ghost predicate SoFar(
    clock: LocalClock, s: ScheduleWindow, bookings: seq<Booking>, cursor: int, found: seq<TimeSlot>)
    requires s.slotMinutes >= 1
  {
    found + FreeFrom(clock, s, cursor, bookings) == FreeFrom(clock, s, s.startMinute, bookings)
  }

  lemma CursorMoves(clock: LocalClock, s: ScheduleWindow, bookings: seq<Booking>, cursor: int, found: seq<TimeSlot>)
    requires s.slotMinutes >= 1 && cursor + s.slotMinutes <= s.endMinute && SoFar(clock, s, bookings, cursor, found)
    ensures var slot := SlotAt(clock, s, cursor);
      SoFar(clock, s, bookings, cursor + s.slotMinutes, if Taken(slot, bookings) then found else found + [slot])
  {
    FreeFromStep(clock, s, cursor, bookings, found, SlotAt(clock, s, cursor));
  }

  lemma CursorEnds(clock: LocalClock, s: ScheduleWindow, bookings: seq<Booking>, cursor: int, found: seq<TimeSlot>)
    requires s.slotMinutes >= 1 && cursor + s.slotMinutes > s.endMinute && SoFar(clock, s, bookings, cursor, found)
    ensures found == FreeFrom(clock, s, s.startMinute, bookings)
  {
    assert found + [] == found;
  }

  method LocalSlot(date: Date, zone: Zone, s: ScheduleWindow, minute: int) returns (slot: TimeSlot)
    ensures slot == SlotAt(ClockOf(date, zone), s, minute)
  {
    var startsAt := ZonedLocalDateTimeToUtc(Parts(date, minute), zone);
    var endsAt := ZonedLocalDateTimeToUtc(Parts(date, minute + s.slotMinutes), zone);
    slot := TimeSlot(startsAt, endsAt);
  }

  method GenerateAvailableSlots(date: Date, zone: Zone, schedule: ScheduleWindow, bookings: seq<Booking>)
    returns (slots: seq<TimeSlot>)
    ensures slots == FreeSlots(ClockOf(date, zone), schedule, bookings)
  {
    slots := [];
    if schedule.slotMinutes < 1 || schedule.endMinute <= schedule.startMinute { return; }
    ghost var clock := ClockOf(date, zone);
    var cursor := schedule.startMinute;
    while cursor + schedule.slotMinutes <= schedule.endMinute
      invariant SoFar(clock, schedule, bookings, cursor, slots)
      decreases schedule.endMinute - cursor
    {
      var slot := LocalSlot(date, zone, schedule, cursor);
      CursorMoves(clock, schedule, bookings, cursor, slots);
      if !Taken(slot, bookings) { slots := slots + [slot]; }
      cursor := cursor + schedule.slotMinutes;
    }
    CursorEnds(clock, schedule, bookings, cursor, slots);
  }

  // ----- soundness and completeness -----

  /** How many whole slots fit. */
  function GridSize(s: ScheduleWindow): nat {
    if Usable(s) then (s.endMinute - s.startMinute) / s.slotMinutes else 0
  }

  /** The lines of the grid, in minutes of the day; cell `k` lies between lines `k` and `k + 1`. */
  function GridMinute(s: ScheduleWindow, k: nat): int { s.startMinute + k * s.slotMinutes }

  function GridEnd(s: ScheduleWindow): int { GridMinute(s, GridSize(s)) }

  function GridSlot(clock: LocalClock, s: ScheduleWindow, k: nat): TimeSlot { SlotAt(clock, s, GridMinute(s, k)) }

  lemma NextLine(s: ScheduleWindow, k: nat)
    ensures GridMinute(s, k) + s.slotMinutes == GridMinute(s, k + 1)
  {
  }

  /** Slot `k` exists exactly when it ends within the schedule. */
  lemma GridSizeIs(s: ScheduleWindow, k: nat)
    requires Usable(s)
    ensures GridMinute(s, k + 1) <= s.endMinute <==> k < GridSize(s)
  {
    var width := s.endMinute - s.startMinute;
    var n := GridSize(s);
    assert n * s.slotMinutes <= width < (n + 1) * s.slotMinutes by {
      assert width == s.slotMinutes * (width / s.slotMinutes) + width % s.slotMinutes;
    }
    if k < n { Scale(k + 1, n, s.slotMinutes); } else { Scale(n + 1, k + 1, s.slotMinutes); }
  }

  lemma GridInWindow(s: ScheduleWindow, k: nat)
    requires k <= GridSize(s) && GridSize(s) > 0
    ensures s.startMinute <= GridMinute(s, k) <= GridEnd(s) <= s.endMinute
  {
    Scale(0, k, s.slotMinutes);
    Scale(k, GridSize(s), s.slotMinutes);
    GridSizeIs(s, GridSize(s) - 1);
  }

  lemma Scale(a: int, b: int, c: nat)
    requires a <= b
    ensures a * c <= b * c
  {
  }

  /** The grid slots from number `k` on that are not taken, in order. */
  function FreeGrid(clock: LocalClock, s: ScheduleWindow, k: nat, bookings: seq<Booking>): seq<TimeSlot>
    decreases GridSize(s) - k
  {
    if k >= GridSize(s) then []
    else
      var rest := FreeGrid(clock, s, k + 1, bookings);
      if Taken(GridSlot(clock, s, k), bookings) then rest else [GridSlot(clock, s, k)] + rest
  }

  lemma {:induction false} CursorWalksGrid(clock: LocalClock, s: ScheduleWindow, k: nat, bookings: seq<Booking>)
    requires Usable(s) && k <= GridSize(s)
    ensures FreeFrom(clock, s, GridMinute(s, k), bookings) == FreeGrid(clock, s, k, bookings)
    decreases GridSize(s) - k
  {
    GridSizeIs(s, k);
    NextLine(s, k);
    if k < GridSize(s) { CursorWalksGrid(clock, s, k + 1, bookings); }
  }

  lemma FreeSlotsAreFreeGrid(clock: LocalClock, s: ScheduleWindow, bookings: seq<Booking>)
    ensures FreeSlots(clock, s, bookings) == FreeGrid(clock, s, 0, bookings)
  {
    if Usable(s) { CursorWalksGrid(clock, s, 0, bookings); }
  }

  lemma {:induction false} FreeGridMembers(
    clock: LocalClock, s: ScheduleWindow, k: nat, bookings: seq<Booking>, slot: TimeSlot)
    ensures slot in FreeGrid(clock, s, k, bookings)
        <==> !Taken(slot, bookings) && exists j: nat :: k <= j < GridSize(s) && slot == GridSlot(clock, s, j)
    decreases GridSize(s) - k
  {
    if k < GridSize(s) { FreeGridMembers(clock, s, k + 1, bookings, slot); }
  }

  /** A slot is offered exactly when it is a grid cell inside the schedule window and no active booking
      overlaps it. */
  lemma OfferedIff(clock: LocalClock, s: ScheduleWindow, bookings: seq<Booking>, slot: TimeSlot)
    ensures slot in FreeSlots(clock, s, bookings)
        <==> !Taken(slot, bookings) && exists j: nat :: j < GridSize(s) && slot == GridSlot(clock, s, j)
  {
    FreeSlotsAreFreeGrid(clock, s, bookings);
    FreeGridMembers(clock, s, 0, bookings, slot);
  }

  predicate CellRises(clock: LocalClock, s: ScheduleWindow, k: nat) {
    clock(GridMinute(s, k)) < clock(GridMinute(s, k + 1))
  }

  /** Later lines of the grid are later instants. */
  ghost predicate GridRises(clock: LocalClock, s: ScheduleWindow) {
    forall k: nat | k < GridSize(s) :: CellRises(clock, s, k)
  }

  /** Later minutes of the schedule are later instants. */
  ghost predicate Rising(clock: LocalClock, s: ScheduleWindow) {
    forall a, b :: s.startMinute <= a < b <= s.endMinute ==> clock(a) < clock(b)
  }

  lemma RisingGrid(clock: LocalClock, s: ScheduleWindow)
    requires Rising(clock, s)
    ensures GridRises(clock, s)
  {
    forall k: nat | k < GridSize(s) ensures CellRises(clock, s, k) {
      GridInWindow(s, k);
      GridInWindow(s, k + 1);
      NextLine(s, k);
    }
  }

  lemma {:induction false} GridLinesApart(clock: LocalClock, s: ScheduleWindow, j: nat, k: nat)
    requires GridRises(clock, s) && j <= k <= GridSize(s)
    ensures clock(GridMinute(s, j)) <= clock(GridMinute(s, k))
    decreases k - j
  {
    if j < k {
      assert CellRises(clock, s, k - 1);
      GridLinesApart(clock, s, j, k - 1);
    }
  }

  /** Different grid cells do not touch, and come in order. */
  lemma GridApart(clock: LocalClock, s: ScheduleWindow, j: nat, k: nat)
    requires GridRises(clock, s) && j <= k < GridSize(s)
    ensures GridSlot(clock, s, j).startsAt < GridSlot(clock, s, j).endsAt
    ensures clock(s.startMinute) <= GridSlot(clock, s, j).startsAt && GridSlot(clock, s, j).endsAt <= clock(GridEnd(s))
    ensures j < k ==> GridSlot(clock, s, j).endsAt <= GridSlot(clock, s, k).startsAt
  {
    assert CellRises(clock, s, j);
    NextLine(s, j);
    NextLine(s, k);
    GridLinesApart(clock, s, 0, j);
    GridLinesApart(clock, s, j + 1, GridSize(s));
    if j < k { GridLinesApart(clock, s, j + 1, k); }
  }

  predicate InOrder(slots: seq<TimeSlot>) {
    && (forall i | 0 <= i < |slots| :: slots[i].startsAt < slots[i].endsAt)
    && (forall i, j | 0 <= i < j < |slots| :: slots[i].endsAt <= slots[j].startsAt)
  }

  lemma PrependInOrder(head: TimeSlot, rest: seq<TimeSlot>)
    requires InOrder(rest) && head.startsAt < head.endsAt
    requires forall slot | slot in rest :: head.endsAt <= slot.startsAt
    ensures InOrder([head] + rest)
  {
  }

  lemma {:induction false} FreeGridInOrder(clock: LocalClock, s: ScheduleWindow, k: nat, bookings: seq<Booking>)
    requires GridRises(clock, s)
    ensures InOrder(FreeGrid(clock, s, k, bookings))
    decreases GridSize(s) - k
  {
    if k < GridSize(s) {
      FreeGridInOrder(clock, s, k + 1, bookings);
      GridApart(clock, s, k, k);
      forall slot | slot in FreeGrid(clock, s, k + 1, bookings)
        ensures GridSlot(clock, s, k).endsAt <= slot.startsAt
      {
        FreeGridMembers(clock, s, k + 1, bookings, slot);
        var j: nat :| k + 1 <= j < GridSize(s) && slot == GridSlot(clock, s, j);
        GridApart(clock, s, k, j);
      }
      PrependInOrder(GridSlot(clock, s, k), FreeGrid(clock, s, k + 1, bookings));
    }
  }

  /** Where the grid lines rise, the slots come in increasing order, have positive length and never overlap. */
  lemma OfferedInOrder(clock: LocalClock, s: ScheduleWindow, bookings: seq<Booking>)
    requires GridRises(clock, s)
    ensures InOrder(FreeSlots(clock, s, bookings))
  {
    FreeSlotsAreFreeGrid(clock, s, bookings);
    FreeGridInOrder(clock, s, 0, bookings);
  }

  /** They do so for all bookings if and only if the grid lines rise. */
  lemma OfferedInOrderIff(clock: LocalClock, s: ScheduleWindow)
    ensures (forall bookings :: InOrder(FreeSlots(clock, s, bookings))) <==> GridRises(clock, s)
  {
    if GridRises(clock, s) {
      forall bookings ensures InOrder(FreeSlots(clock, s, bookings)) { OfferedInOrder(clock, s, bookings); }
    } else {
      var k: nat :| k < GridSize(s) && !CellRises(clock, s, k);
      EmptyDayOffers(clock, s, k);
      NextLine(s, k);
      assert !InOrder(FreeSlots(clock, s, []));
    }
  }

  lemma {:induction false} EmptyGridCount(clock: LocalClock, s: ScheduleWindow, k: nat)
    requires k <= GridSize(s)
    ensures |FreeGrid(clock, s, k, [])| == GridSize(s) - k
    decreases GridSize(s) - k
  {
    if k < GridSize(s) { EmptyGridCount(clock, s, k + 1); }
  }

  /** Without bookings a day offers as many slots as fit. */
  lemma EmptyDayCount(clock: LocalClock, s: ScheduleWindow)
    ensures |FreeSlots(clock, s, [])| == GridSize(s)
  {
    FreeSlotsAreFreeGrid(clock, s, []);
    EmptyGridCount(clock, s, 0);
  }

  lemma {:induction false} EmptyGridAt(clock: LocalClock, s: ScheduleWindow, k: nat, i: nat)
    requires k + i < GridSize(s)
    ensures i < |FreeGrid(clock, s, k, [])| && FreeGrid(clock, s, k, [])[i] == GridSlot(clock, s, k + i)
    decreases i
  {
    EmptyGridCount(clock, s, k);
    if i > 0 { EmptyGridAt(clock, s, k + 1, i - 1); }
  }

  /** A day without bookings offers the whole grid. */
  lemma EmptyDayOffers(clock: LocalClock, s: ScheduleWindow, k: nat)
    requires k < GridSize(s)
    ensures k < |FreeSlots(clock, s, [])| && FreeSlots(clock, s, [])[k] == GridSlot(clock, s, k)
  {
    FreeSlotsAreFreeGrid(clock, s, []);
    EmptyGridAt(clock, s, 0, k);
  }

  // ----- lists that differ -----

  lemma {:induction false} SameTakenSameGrid(
    clock: LocalClock, s: ScheduleWindow, k: nat, a: seq<Booking>, b: seq<Booking>)
    requires forall j: nat | k <= j < GridSize(s) ::
        Taken(GridSlot(clock, s, j), a) <==> Taken(GridSlot(clock, s, j), b)
    ensures FreeGrid(clock, s, k, a) == FreeGrid(clock, s, k, b)
    decreases GridSize(s) - k
  {
    if k < GridSize(s) { SameTakenSameGrid(clock, s, k + 1, a, b); }
  }

  function Without(slots: seq<TimeSlot>, slot: TimeSlot): seq<TimeSlot> {
    if slots == [] then []
    else if slots[0] == slot then Without(slots[1..], slot)
    else [slots[0]] + Without(slots[1..], slot)
  }

  lemma {:induction false} OneMoreTaken(
    clock: LocalClock, s: ScheduleWindow, k: nat, a: seq<Booking>, b: seq<Booking>, slot: TimeSlot)
    requires forall j: nat | k <= j < GridSize(s) ::
        Taken(GridSlot(clock, s, j), b) <==> Taken(GridSlot(clock, s, j), a) || GridSlot(clock, s, j) == slot
    ensures FreeGrid(clock, s, k, b) == Without(FreeGrid(clock, s, k, a), slot)
    decreases GridSize(s) - k
  {
    if k < GridSize(s) {
      OneMoreTaken(clock, s, k + 1, a, b, slot);
      var head := GridSlot(clock, s, k);
      var rest := FreeGrid(clock, s, k + 1, a);
      if !Taken(head, a) { assert ([head] + rest)[1..] == rest; }
    }
  }

  // ----- today and the schedule of the day -----

  /** `filterFutureSlotsForToday`: on the tenant's current date only slots that start after `now`. */
  function FutureSlots(slots: seq<TimeSlot>, date: Date, zone: Zone, now: int): seq<TimeSlot> {
    if ZonedParts(zone, now).date != date then slots else StartingAfter(slots, now)
  }

  function StartingAfter(slots: seq<TimeSlot>, now: int): seq<TimeSlot> {
    if slots == [] then []
    else if slots[0].startsAt > now then [slots[0]] + StartingAfter(slots[1..], now)
    else StartingAfter(slots[1..], now)
  }

  lemma {:induction false} WithoutStartingAfter(slots: seq<TimeSlot>, slot: TimeSlot, now: int)
    ensures StartingAfter(Without(slots, slot), now) == Without(StartingAfter(slots, now), slot)
  {
    if slots != [] {
      WithoutStartingAfter(slots[1..], slot, now);
      var rest := Without(slots[1..], slot);
      var later := StartingAfter(slots[1..], now);
      assert ([slots[0]] + rest)[1..] == rest && ([slots[0]] + later)[1..] == later;
    }
  }

  lemma {:induction false} StartingAfterMembers(slots: seq<TimeSlot>, now: int, slot: TimeSlot)
    ensures slot in StartingAfter(slots, now) <==> slot in slots && slot.startsAt > now
  {
    if slots != [] { StartingAfterMembers(slots[1..], now, slot); }
  }

  predicate IsFor(s: ScheduleWindow, dayOfWeek: int) { s.isActive && s.dayOfWeek == dayOfWeek }

  /** `pickScheduleForDay`: the first active schedule of the weekday. */
  function PickSchedule(schedules: seq<ScheduleWindow>, dayOfWeek: int): (r: Option<ScheduleWindow>)
    ensures r.Some? ==> exists k: nat ::
      k < |schedules| && r.value == schedules[k] && IsFor(schedules[k], dayOfWeek)
      && forall j | 0 <= j < k :: !IsFor(schedules[j], dayOfWeek)
    ensures r.None? ==> forall j | 0 <= j < |schedules| :: !IsFor(schedules[j], dayOfWeek)
  {
    if schedules == [] then None
    else if IsFor(schedules[0], dayOfWeek) then Some(schedules[0])
    else
      var r := PickSchedule(schedules[1..], dayOfWeek);
      assert forall j | 0 <= j < |schedules| - 1 :: schedules[1..][j] == schedules[j + 1];
      r
  }

  /** `dayOfWeekForDate`: the weekday the zone's clock shows at the converted local noon. */
  function DayOfWeek(date: Date, zone: Zone): int {
    Weekday(Reading(zone, Convert(Parts(date, 720), zone)) / DAY)
  }

  /** What is kept of a listing: all of it on another date, the slots that start after `now` today, in order. */
  lemma FutureSlotsAre(slots: seq<TimeSlot>, date: Date, zone: Zone, now: int, slot: TimeSlot)
    ensures slot in FutureSlots(slots, date, zone, now)
        <==> slot in slots && (ZonedParts(zone, now).date == date ==> slot.startsAt > now)
    ensures InOrder(slots) ==> InOrder(FutureSlots(slots, date, zone, now))
  {
    StartingAfterMembers(slots, now, slot);
    StartingAfterInOrder(slots, now);
  }

  lemma {:induction false} StartingAfterInOrder(slots: seq<TimeSlot>, now: int)
    ensures InOrder(slots) ==> InOrder(StartingAfter(slots, now))
  {
    if slots != [] && InOrder(slots) {
      var rest := slots[1..];
      assert forall i | 0 <= i < |rest| :: rest[i] == slots[i + 1];
      StartingAfterInOrder(rest, now);
      if slots[0].startsAt > now {
        forall slot | slot in StartingAfter(rest, now) ensures slots[0].endsAt <= slot.startsAt {
          StartingAfterMembers(rest, now, slot);
          assert slot in rest;
        }
        PrependInOrder(slots[0], StartingAfter(rest, now));
      }
    }
  }

  /** At a constant offset the weekday is the calendar's, unless noon converts into another month (offsets of
      half a day and more, on its last or first day) and the days in between are no whole weeks. */
  lemma DayOfWeekIsIff(date: Date, offset: int)
    requires ValidDate(date) && -DAY < offset < DAY
    ensures
      var m := MonthIndex(date);
      DayOfWeek(date, Fixed(offset)) == Weekday(DayNumber(date)) <==>
        (&& !(date.day == MonthLength(m) && offset >= DAY - 720 && MonthLength(m) != 28)
         && !(date.day == 1 && offset < -720 && MonthLength(m - 1) != 28))
  {
    DayOfWeekAt(date, offset);
    SlipInWeeks(date, offset);
    WholeWeeks(DayNumber(date), Slip(date, 720, offset));
  }

  lemma WholeWeeks(day: int, k: int)
    ensures Weekday(day + k) == Weekday(day) <==> k % 7 == 0
  {
  }

  lemma DayOfWeekAt(date: Date, offset: int)
    requires ValidDate(date) && -DAY < offset < DAY
    ensures DayOfWeek(date, Fixed(offset)) == Weekday(DayNumber(date) + Slip(date, 720, offset))
  {
    FixedConvertIs(Parts(date, 720), offset);
    assert (720 + (DayNumber(date) + Slip(date, 720, offset)) * DAY) / DAY == DayNumber(date) + Slip(date, 720, offset);
  }

  lemma SlipInWeeks(date: Date, offset: int)
    requires ValidDate(date) && -DAY < offset < DAY
    ensures
      var m := MonthIndex(date);
      Slip(date, 720, offset) % 7 == 0 <==>
        (&& !(date.day == MonthLength(m) && offset >= DAY - 720 && MonthLength(m) != 28)
         && !(date.day == 1 && offset < -720 && MonthLength(m - 1) != 28))
  {
  }

  /** Wherever the probe at noon reads in the month, the weekday is the calendar's. */
  lemma DayOfWeekIs(date: Date, offset: int)
    requires ValidDate(date) && -DAY < offset < DAY
    requires ReadMonth(Naive(Parts(date, 720)) + offset) == MonthIndex(date)
    ensures DayOfWeek(date, Fixed(offset)) == Weekday(DayNumber(date))
  {
    FirstProbe(Parts(date, 720), offset);
    DayOfWeekAt(date, offset);
  }

  /** Near a change of offset, with the probes for noon in the month, the weekday is the calendar's unless noon is
      never shown and lies half a day or more inside the gap. */
  lemma DayOfWeekNearIff(date: Date, zone: Zone, at: int, before: int, after: int)
    requires ValidDate(date) && Mild(zone) && OneChangeNear(zone, DayNumber(date) * DAY + 720, at, before, after)
    requires StaysInMonth(Parts(date, 720), zone, at, before, after)
    ensures
      var noon := DayNumber(date) * DAY + 720;
      DayOfWeek(date, zone) == Weekday(DayNumber(date)) <==>
        !(InGap(noon, at, before, after) && after - before >= if noon < at then 721 else 720)
  {
    var day := DayNumber(date);
    var noon := day * DAY + 720;
    var utc, off := noon - OffsetUsed(noon, at, before, after), ReadOff(noon, at, before, after);
    ReadOffIs(zone, noon, at, before, after);
    ChangeConvertIs(Parts(date, 720), zone, at, before, after);
    WeekdayKeptIff(date, zone, utc, day, off);
  }

  /** How far from a local time the clock reads at the instant that time converts to. */
  function ReadOff(local: int, at: int, before: int, after: int): int {
    if InGap(local, at, before, after) then (if local < at then before - after else after - before) else 0
  }

  lemma ReadOffIs(zone: Zone, local: int, at: int, before: int, after: int)
    requires OneChangeNear(zone, local, at, before, after)
    ensures Reading(zone, local - OffsetUsed(local, at, before, after)) == local + ReadOff(local, at, before, after)
  {
  }

  lemma WeekdayKeptIff(date: Date, zone: Zone, utc: int, day: int, off: int)
    requires Convert(Parts(date, 720), zone) == utc && Reading(zone, utc) == day * DAY + 720 + off
    requires -2 * DAY < off < 2 * DAY
    ensures DayOfWeek(date, zone) == Weekday(day) <==> -720 <= off < 720
  {
    WeekdayShown(date, zone, utc, day * DAY + 720 + off);
    ReadsOnDay(day, off);
  }

  lemma WeekdayShown(date: Date, zone: Zone, utc: int, reading: int)
    requires Convert(Parts(date, 720), zone) == utc && Reading(zone, utc) == reading
    ensures DayOfWeek(date, zone) == Weekday(reading / DAY)
  {
  }

  lemma ReadsOnDay(day: int, off: int)
    requires -2 * DAY < off < 2 * DAY
    ensures Weekday((day * DAY + 720 + off) / DAY) == Weekday(day) <==> -720 <= off < 720
  {
    assert (day * DAY + 720 + off) / DAY == day + (720 + off) / DAY;
  }

  /** The last of a month of 31 days, before one of 28: 31 January of a common year. */
  predicate JanuaryEnd(date: Date) {
    && ValidDate(date) && date.day == 31
    && MonthLength(MonthIndex(date)) == 31 && MonthLength(MonthIndex(date) + 1) == 28
  }

  lemma JanuaryEndIff(date: Date)
    requires ValidDate(date)
    ensures JanuaryEnd(date) <==> date.month == 1 && date.day == 31 && !IsLeapYear(date.year)
  {
  }

  /** Half a day or more ahead of UTC, 31 January of a common year counts as the weekday three days on, the day
      the probe at noon ends up on, in March. */
  lemma JanuaryEndMisread(date: Date, offset: int)
    requires JanuaryEnd(date) && DAY - 720 <= offset < DAY
    ensures DayOfWeek(date, Fixed(offset)) == (Weekday(DayNumber(date)) + 3) % 7
  {
    DayOfWeekAt(date, offset);
    ThreeDaysOn(DayNumber(date));
  }

  lemma ThreeDaysOn(day: int)
    ensures Weekday(day + 59) == (Weekday(day) + 3) % 7
  {
  }

  /** Saturday 31 January 1970 is such a date: in Pacific/Auckland (+13:00 in summer) it counts as a Tuesday. */
  lemma FirstJanuaryEnd(date: Date)
    requires date == Date(1970, 1, 31)
    ensures JanuaryEnd(date) && DayNumber(date) == 30 && Weekday(DayNumber(date)) == 6
  {
    assert MonthLength(EPOCH_MONTH) == 31;
    JanuaryEndIff(date);
  }

  // ----- when the grid rises -----

  /** The minutes of a date. */
  predicate OfTheDay(s: ScheduleWindow) { 0 <= s.startMinute && s.endMinute < DAY }

  lemma FixedClock(date: Date, offset: int, minute: int)
    requires ValidDate(date) && -DAY < offset < DAY && 0 <= minute < DAY
    ensures ClockOf(date, Fixed(offset))(minute)
         == DayNumber(date) * DAY + minute - offset + DAY * Slip(date, minute, offset)
  {
    FixedConvertIs(Parts(date, minute), offset);
  }

  /** At a constant offset the clock rises all day, on every date: the times of a date that convert into the
      month before are its first ones, those that convert into the month after its last ones. */
  lemma FixedRises(date: Date, offset: int, s: ScheduleWindow)
    requires ValidDate(date) && -DAY < offset < DAY && OfTheDay(s)
    ensures Rising(ClockOf(date, Fixed(offset)), s)
  {
    var clock := ClockOf(date, Fixed(offset));
    forall a, b | s.startMinute <= a < b <= s.endMinute ensures clock(a) < clock(b) {
      FixedClock(date, offset, a);
      FixedClock(date, offset, b);
    }
  }

  /** A window on a day near a change of offset, with every probe of its minutes in the month. */
  ghost predicate ChangeDay(date: Date, zone: Zone, s: ScheduleWindow, at: int, before: int, after: int) {
    && ValidDate(date) && Mild(zone) && OfTheDay(s)
    && forall m | s.startMinute <= m <= s.endMinute ::
         OneChangeNear(zone, Naive(Parts(date, m)), at, before, after)
         && StaysInMonth(Parts(date, m), zone, at, before, after)
  }

  /** Every day but the first and the last of a month is one, whatever its schedule. */
  lemma InsideAMonth(date: Date, s: ScheduleWindow, at: int, before: int, after: int)
    requires ValidDate(date) && 2 <= date.day < MonthLength(MonthIndex(date))
    requires OfTheDay(s) && MildOffsets(before, after)
    ensures ChangeDay(date, OneChange(at, before, after), s, at, before, after)
  {
    var zone := OneChange(at, before, after);
    forall m | s.startMinute <= m <= s.endMinute
      ensures OneChangeNear(zone, Naive(Parts(date, m)), at, before, after)
        && StaysInMonth(Parts(date, m), zone, at, before, after)
    {
      OneChangeIsMild(Naive(Parts(date, m)), at, before, after);
      InsideTheMonth(Parts(date, m), zone, at, before, after);
    }
    OneChangeIsMild(0, at, before, after);
  }

  lemma ChangeClock(date: Date, zone: Zone, s: ScheduleWindow, at: int, before: int, after: int, minute: int)
    requires ChangeDay(date, zone, s, at, before, after) && s.startMinute <= minute <= s.endMinute
    ensures
      var local := DayNumber(date) * DAY + minute;
      ClockOf(date, zone)(minute) == local - OffsetUsed(local, at, before, after)
  {
    ChangeConvertIs(Parts(date, minute), zone, at, before, after);
  }

  /** Two minutes of the window keep their order exactly when the conversion does not stumble between them. */
  lemma ChangeLaterIff(
    date: Date, zone: Zone, s: ScheduleWindow, at: int, before: int, after: int, a: int, b: int)
    requires ChangeDay(date, zone, s, at, before, after) && s.startMinute <= a < b <= s.endMinute
    ensures
      var clock, midnight := ClockOf(date, zone), DayNumber(date) * DAY;
      clock(a) < clock(b) <==> !Stumbles(midnight + a, midnight + b, at, before, after)
  {
    ChangeClock(date, zone, s, at, before, after, a);
    ChangeClock(date, zone, s, at, before, after, b);
    LaterIff(DayNumber(date) * DAY + a, DayNumber(date) * DAY + b, at, before, after);
  }

  predicate InWindow(date: Date, s: ScheduleWindow, local: int) {
    s.startMinute <= local - DayNumber(date) * DAY <= s.endMinute
  }

  /** The window spans the step into a gap, in a zone behind UTC before the change, or the step out of one, in
      a zone ahead of UTC after it. */
  predicate SpansAStep(date: Date, s: ScheduleWindow, at: int, before: int, after: int) {
    && before < after
    && ((before < 0 && InWindow(date, s, at + before - 1) && InWindow(date, s, at + before))
        || (after > 0 && InWindow(date, s, at + after - 1) && InWindow(date, s, at + after)))
  }

  /** Near a change of offset the clock rises over a window if and only if the window spans no such step. */
  lemma ChangeRisesIff(date: Date, zone: Zone, s: ScheduleWindow, at: int, before: int, after: int)
    requires ChangeDay(date, zone, s, at, before, after)
    ensures Rising(ClockOf(date, zone), s) <==> !SpansAStep(date, s, at, before, after)
  {
    var clock, midnight := ClockOf(date, zone), DayNumber(date) * DAY;
    if SpansAStep(date, s, at, before, after) {
      var b := if before < 0 && InWindow(date, s, at + before - 1) && InWindow(date, s, at + before)
               then at + before - midnight else at + after - midnight;
      ChangeLaterIff(date, zone, s, at, before, after, b - 1, b);
      assert Stumbles(midnight + b - 1, midnight + b, at, before, after);
    } else {
      forall a, b | s.startMinute <= a < b <= s.endMinute ensures clock(a) < clock(b) {
        ChangeLaterIff(date, zone, s, at, before, after, a, b);
      }
    }
  }

  /** In particular it rises over a window without a minute that the zone never shows. */
  lemma NoGapRises(date: Date, zone: Zone, s: ScheduleWindow, at: int, before: int, after: int)
    requires ChangeDay(date, zone, s, at, before, after)
    requires forall local | InWindow(date, s, local) :: !InGap(local, at, before, after)
    ensures Rising(ClockOf(date, zone), s)
  {
    ChangeRisesIff(date, zone, s, at, before, after);
    assert before < after ==> InGap(at + before, at, before, after) && InGap(at + after - 1, at, before, after);
  }

  predicate CellStumbles(date: Date, s: ScheduleWindow, k: nat, at: int, before: int, after: int) {
    var midnight := DayNumber(date) * DAY;
    Stumbles(midnight + GridMinute(s, k), midnight + GridMinute(s, k + 1), at, before, after)
  }

  /** The grid itself rises exactly when no cell lies across a stumble; a cell longer than the gap never does. */
  lemma ChangeGridRisesIff(date: Date, zone: Zone, s: ScheduleWindow, at: int, before: int, after: int)
    requires ChangeDay(date, zone, s, at, before, after)
    ensures GridRises(ClockOf(date, zone), s)
        <==> forall k: nat | k < GridSize(s) :: !CellStumbles(date, s, k, at, before, after)
  {
    var clock := ClockOf(date, zone);
    forall k: nat | k < GridSize(s)
      ensures CellRises(clock, s, k) <==> !CellStumbles(date, s, k, at, before, after)
    {
      ChangeCellIff(date, zone, s, at, before, after, k);
    }
  }

  lemma ChangeCellIff(date: Date, zone: Zone, s: ScheduleWindow, at: int, before: int, after: int, k: nat)
    requires ChangeDay(date, zone, s, at, before, after) && k < GridSize(s)
    ensures CellRises(ClockOf(date, zone), s, k) <==> !CellStumbles(date, s, k, at, before, after)
  {
    GridInWindow(s, k);
    GridInWindow(s, k + 1);
    NextLine(s, k);
    ChangeLaterIff(date, zone, s, at, before, after, GridMinute(s, k), GridMinute(s, k + 1));
  }

  /** The clocks go forward at 02:00, from -05:00 to -04:00: the slot at 01:30 ends before it starts, and the slot
      at 02:00 is the one at 01:00 again. */
  lemma SpringForwardRepeatsASlot(date: Date, s: ScheduleWindow, clock: LocalClock, first: TimeSlot, second: TimeSlot)
    requires ValidDate(date) && 2 <= date.day < MonthLength(MonthIndex(date))
    requires clock == ClockOf(date, OneChange(DayNumber(date) * DAY + 420, -300, -240))
    requires s.startMinute == 60 && s.endMinute == 150 && s.slotMinutes == 30
    requires first == TimeSlot(DayNumber(date) * DAY + 360, DayNumber(date) * DAY + 390)
    requires second == TimeSlot(first.endsAt, first.startsAt)
    ensures FreeSlots(clock, s, []) == [first, second, first]
    ensures !Rising(clock, s) && !GridRises(clock, s)
  {
    SpringForwardClock(date, s);
    ThreeSlots(clock, s, first, second, first);
  }

  lemma SpringForwardClock(date: Date, s: ScheduleWindow)
    requires ValidDate(date) && 2 <= date.day < MonthLength(MonthIndex(date))
    requires s.startMinute == 60 && s.endMinute == 150
    ensures
      var midnight := DayNumber(date) * DAY;
      var clock := ClockOf(date, OneChange(midnight + 420, -300, -240));
      && clock(60) == midnight + 360 && clock(90) == midnight + 390
      && clock(120) == midnight + 360 && clock(150) == midnight + 390
  {
    var at := DayNumber(date) * DAY + 420;
    var zone := OneChange(at, -300, -240);
    InsideAMonth(date, s, at, -300, -240);
    ChangeClock(date, zone, s, at, -300, -240, 60);
    ChangeClock(date, zone, s, at, -300, -240, 90);
    ChangeClock(date, zone, s, at, -300, -240, 120);
    ChangeClock(date, zone, s, at, -300, -240, 150);
  }

  lemma ThreeSlots(clock: LocalClock, s: ScheduleWindow, a: TimeSlot, b: TimeSlot, c: TimeSlot)
    requires s.startMinute == 60 && s.endMinute == 150 && s.slotMinutes == 30
    requires a == TimeSlot(clock(60), clock(90)) && b == TimeSlot(clock(90), clock(120))
    requires c == TimeSlot(clock(120), clock(150)) && b.endsAt < b.startsAt
    ensures FreeSlots(clock, s, []) == [a, b, c]
    ensures !Rising(clock, s) && !GridRises(clock, s)
  {
    EmptyDayCount(clock, s);
    EmptyDayOffers(clock, s, 0);
    EmptyDayOffers(clock, s, 1);
    EmptyDayOffers(clock, s, 2);
    assert !CellRises(clock, s, 1);
  }

  // ----- at the edge of a month -----

  /** A window on a day near a change of offset where each minute's probes either stay in the month, or leave it and
      find the same offset wherever they lead. */
  ghost predicate EdgeDay(date: Date, zone: Zone, s: ScheduleWindow, at: int, before: int, after: int) {
    && ValidDate(date) && Mild(zone) && OfTheDay(s)
    && forall m | s.startMinute <= m <= s.endMinute :: Settles(Parts(date, m), zone, at, before, after)
  }

  ghost predicate Settles(target: Parts, zone: Zone, at: int, before: int, after: int) {
    && OneChangeNear(zone, Naive(target), at, before, after)
    && (StaysInMonth(target, zone, at, before, after) || Keeps(target, zone, zone(Naive(target))))
  }

  function OffsetAt(utc: int, at: int, before: int, after: int): int { if utc < at then before else after }

  /** By how many days a minute of a date is off, near a change of offset. */
  function Drift(date: Date, minute: int, at: int, before: int, after: int): int {
    Slip(date, minute, OffsetAt(DayNumber(date) * DAY + minute, at, before, after))
  }

  /** The instant of a minute of a date, near a change of offset. */
  function InstantNear(date: Date, minute: int, at: int, before: int, after: int): int {
    var local, drift := DayNumber(date) * DAY + minute, Drift(date, minute, at, before, after);
    if drift != 0 then local - OffsetAt(local, at, before, after) + DAY * drift
    else local - OffsetUsed(local, at, before, after)
  }

  lemma SettledConvertIs(date: Date, minute: int, zone: Zone, at: int, before: int, after: int)
    requires ValidDate(date) && 0 <= minute < DAY && Mild(zone)
    requires Settles(Parts(date, minute), zone, at, before, after)
    ensures Convert(Parts(date, minute), zone) == InstantNear(date, minute, at, before, after)
  {
    var target := Parts(date, minute);
    if StaysInMonth(target, zone, at, before, after) {
      ChangeConvertIs(target, zone, at, before, after);
      NoDrift(target, zone, at, before, after);
    } else {
      KeptConvertIs(target, zone, zone(Naive(target)));
      KeptUsed(target, zone, at, before, after);
    }
  }

  lemma NoDrift(target: Parts, zone: Zone, at: int, before: int, after: int)
    requires ValidParts(target) && OneChangeNear(zone, Naive(target), at, before, after)
    requires StaysInMonth(target, zone, at, before, after)
    ensures Drift(target.date, target.minute, at, before, after) == 0
  {
    FirstProbe(target, zone(Naive(target)));
  }

  lemma KeptUsed(target: Parts, zone: Zone, at: int, before: int, after: int)
    requires ValidParts(target) && OneChangeNear(zone, Naive(target), at, before, after)
    requires Keeps(target, zone, zone(Naive(target)))
    ensures Drift(target.date, target.minute, at, before, after) == 0
        ==> OffsetUsed(Naive(target), at, before, after) == zone(Naive(target))
  {
    var offset := zone(Naive(target));
    if Drift(target.date, target.minute, at, before, after) == 0 {
      assert Visits(target, offset, Naive(target) - offset);
    }
  }

  lemma EdgeClock(date: Date, zone: Zone, s: ScheduleWindow, at: int, before: int, after: int, minute: int)
    requires EdgeDay(date, zone, s, at, before, after) && s.startMinute <= minute <= s.endMinute
    ensures ClockOf(date, zone)(minute) == InstantNear(date, minute, at, before, after)
  {
    SettledConvertIs(date, minute, zone, at, before, after);
  }

  /** Two minutes of such a window are out of order: between two that stay the conversion stumbles, two that drift lie
      across the change and no further apart than it is long, and one that drifts leaves for the month before only
      from the first of a month. */
  predicate OutOfOrder(date: Date, a: int, b: int, at: int, before: int, after: int) {
    var midnight := DayNumber(date) * DAY;
    var drifts := (minute: int) => Drift(date, minute, at, before, after) != 0;
    if drifts(a) && drifts(b) then midnight + a < at <= midnight + b && b - a <= after - before
    else if drifts(a) then date.day != 1
    else if drifts(b) then date.day == 1
    else Stumbles(midnight + a, midnight + b, at, before, after)
  }

  lemma InstantsInOrderIff(date: Date, a: int, b: int, at: int, before: int, after: int)
    requires ValidDate(date) && 0 <= a < b < DAY && -DAY < before < DAY && -DAY < after < DAY
    ensures InstantNear(date, a, at, before, after) < InstantNear(date, b, at, before, after)
        <==> !OutOfOrder(date, a, b, at, before, after)
  {
    var midnight := DayNumber(date) * DAY;
    LaterIff(midnight + a, midnight + b, at, before, after);
    SlipsAway(date, a, OffsetAt(midnight + a, at, before, after));
    SlipsAway(date, b, OffsetAt(midnight + b, at, before, after));
    OffsetUsedIsOne(midnight + a, at, before, after);
    OffsetUsedIsOne(midnight + b, at, before, after);
  }

  /** Minutes that drift do so by whole months, all alike. */
  lemma SlipsAway(date: Date, minute: int, offset: int)
    requires ValidDate(date) && 0 <= minute < DAY && -DAY < offset < DAY
    ensures
      var slip := Slip(date, minute, offset);
      slip == 0 || slip == (if date.day == 1 then FirstSlip(date) else LastSlip(date))
    ensures FirstSlip(date) <= -28 && LastSlip(date) >= 28
  {
  }

  function FirstSlip(date: Date): int { 0 - MonthLength(MonthIndex(date) - 1) }

  function LastSlip(date: Date): int {
    var m := MonthIndex(date);
    if date.day <= MonthLength(m + 1) then MonthLength(m) else MonthLength(m) + MonthLength(m + 1)
  }

  lemma OffsetUsedIsOne(local: int, at: int, before: int, after: int)
    ensures OffsetUsed(local, at, before, after) == before || OffsetUsed(local, at, before, after) == after
  {
  }

  /** Over such a window the clock rises if and only if no two minutes are out of order. */
  lemma EdgeRisesIff(date: Date, zone: Zone, s: ScheduleWindow, at: int, before: int, after: int)
    requires EdgeDay(date, zone, s, at, before, after)
    ensures Rising(ClockOf(date, zone), s) <==>
      forall a, b | s.startMinute <= a < b <= s.endMinute :: !OutOfOrder(date, a, b, at, before, after)
  {
    var clock := ClockOf(date, zone);
    forall a, b | s.startMinute <= a < b <= s.endMinute
      ensures clock(a) < clock(b) <==> !OutOfOrder(date, a, b, at, before, after)
    {
      EdgeClock(date, zone, s, at, before, after, a);
      EdgeClock(date, zone, s, at, before, after, b);
      assert Settles(Parts(date, a), zone, at, before, after);
      InstantsInOrderIff(date, a, b, at, before, after);
    }
  }

  /** The clocks go back at 02:00 on the first of a month, from -04:00 to -05:00: the times before 04:00 convert into
      the month before, on its first day. */
  lemma FallBackOnTheFirst(date: Date, zone: Zone, minute: int)
    requires ValidDate(date) && date.day == 1 && 0 <= minute < DAY
    requires zone == OneChange(DayNumber(date) * DAY + 360, -240, -300)
    ensures ClockOf(date, zone)(minute)
         == DayNumber(date) * DAY + minute + if minute < 240 then 240 - DAY * MonthLength(MonthIndex(date) - 1) else 300
  {
    var at := DayNumber(date) * DAY + 360;
    OneChangeIsMild(Naive(Parts(date, minute)), at, -240, -300);
    if minute < 240 { EarlyOnTheFirst(date, zone, minute); } else { LaterOnTheFirst(date, zone, minute); }
    SettledConvertIs(date, minute, zone, at, -240, -300);
  }

  lemma EarlyOnTheFirst(date: Date, zone: Zone, minute: int)
    requires ValidDate(date) && date.day == 1 && 0 <= minute < 240
    requires zone == OneChange(DayNumber(date) * DAY + 360, -240, -300)
    ensures Keeps(Parts(date, minute), zone, -240)
  {
    MonthsApart(MonthIndex(date));
  }

  lemma LaterOnTheFirst(date: Date, zone: Zone, minute: int)
    requires ValidDate(date) && date.day == 1 && 240 <= minute < DAY
    requires zone == OneChange(DayNumber(date) * DAY + 360, -240, -300)
    ensures StaysInMonth(Parts(date, minute), zone, DayNumber(date) * DAY + 360, -240, -300)
  {
    forall r | DayNumber(date) * DAY <= r < (DayNumber(date) + 1) * DAY ensures ReadMonth(r) == MonthIndex(date) {
      assert r / DAY == DayNumber(date);
      MonthOfIsUnique(DayNumber(date), MonthIndex(date));
    }
  }
}
