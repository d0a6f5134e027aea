/**
 * What a slot listing promises a tenant, and exactly when the conversion of local times lets it keep its promises.
 */
module Guarantees {
  import opened Wrappers
  import opened Calendar
  import opened CorrectionLoop
  import opened Timezone
  import opened Slots
  import opened Availability

  /** The bookings and the instant, in the listing's own terms. */
  function ListingOf(resources: Resources, userId: nat, resourceId: nat, bookings: seq<Booking>, date: Date, zone: Zone,
                     now: int): seq<TimeSlot>
    requires resourceId in resources
  {
    Listing(bookings, userId, resourceId, resources[resourceId].schedules, date, zone, now)
  }

  /** Whatever is booked and whenever it is asked for, every listed slot passes the conflict check. */
  ghost predicate ListsOnlyFree(resources: Resources, userId: nat, resourceId: nat, date: Date, zone: Zone)
    requires resourceId in resources
  {
    forall bookings: seq<Booking>, now: int, slot: TimeSlot |
      slot in ListingOf(resources, userId, resourceId, bookings, date, zone, now) ::
      !Conflicts(bookings, userId, resourceId, slot.startsAt, slot.endsAt)
  }

  predicate IsListed(
    resources: Resources, userId: nat, resourceId: nat, bookings: seq<Booking>, b: Booking,
    date: Date, zone: Zone, now: int)
    requires resourceId in resources
  {
    && b.userId == userId && b.resourceId == resourceId && Active(b.status)
    && TimeSlot(b.startsAt, b.endsAt) in ListingOf(resources, userId, resourceId, bookings, date, zone, now)
  }

  /** A booking for a listed slot is always accepted. */
  ghost predicate BooksWhatItLists(resources: Resources, userId: nat, resourceId: nat, date: Date, zone: Zone)
    requires resourceId in resources
  {
    forall bookings, b: Booking, now | IsListed(resources, userId, resourceId, bookings, b, date, zone, now) ::
      CreateAnswer(resources, bookings, b).Ok?
  }

  /** Booking a listed slot always takes exactly that slot off the listing. */
  ghost predicate RemovesWhatItBooks(resources: Resources, userId: nat, resourceId: nat, date: Date, zone: Zone)
    requires resourceId in resources
  {
    forall bookings, b: Booking, now | IsListed(resources, userId, resourceId, bookings, b, date, zone, now) ::
      Removes(resources, bookings, b, date, zone, now)
  }

  /** The schedule of the date, if it has one, has all its cells within the day range. */
  ghost predicate Within(resources: Resources, resourceId: nat, date: Date, zone: Zone)
    requires resourceId in resources
  {
    WithinListing(resources[resourceId].schedules, date, zone)
  }

  /** It also has a grid that runs forward. */
  ghost predicate Covered(resources: Resources, resourceId: nat, date: Date, zone: Zone)
    requires resourceId in resources
  {
    CoversListing(resources[resourceId].schedules, date, zone)
  }

  // ----- the promises kept -----

  lemma WithinListsOnlyFree(resources: Resources, userId: nat, resourceId: nat, date: Date, zone: Zone)
    requires resourceId in resources && Within(resources, resourceId, date, zone)
    ensures ListsOnlyFree(resources, userId, resourceId, date, zone)
  {
    forall bookings: seq<Booking>, now: int, slot: TimeSlot |
      slot in ListingOf(resources, userId, resourceId, bookings, date, zone, now)
      ensures !Conflicts(bookings, userId, resourceId, slot.startsAt, slot.endsAt)
    {
      var _ := ListedSlot(bookings, userId, resourceId, resources[resourceId].schedules, date, zone, now, slot);
    }
  }

  lemma CoveredGuarantees(resources: Resources, userId: nat, resourceId: nat, date: Date, zone: Zone)
    requires Mine(resources, userId, resourceId) && resources[resourceId].isActive
    requires Covered(resources, resourceId, date, zone)
    ensures BooksWhatItLists(resources, userId, resourceId, date, zone)
    ensures RemovesWhatItBooks(resources, userId, resourceId, date, zone)
  {
    forall bookings, b: Booking, now | IsListed(resources, userId, resourceId, bookings, b, date, zone, now)
      ensures CreateAnswer(resources, bookings, b).Ok? && Removes(resources, bookings, b, date, zone, now)
    {
      ListedSlotIsBookable(resources, bookings, b, date, zone, now);
      BookingRemovesItsSlot(resources, bookings, b, date, zone, now);
    }
  }

  // ----- the promises broken -----

  /** Just before it starts the slot of `b` is listed; booking it is refused, and it stays listed. */
  ghost predicate ListedInVain(
    resources: Resources, userId: nat, resourceId: nat, bookings: seq<Booking>, b: Booking, date: Date, zone: Zone)
    requires resourceId in resources
  {
    && IsListed(resources, userId, resourceId, bookings, b, date, zone, b.startsAt - 1)
    && CreateAnswer(resources, bookings, b).Err? && !Removes(resources, bookings, b, date, zone, b.startsAt - 1)
  }

  /** A booking that the range `[lo, hi)` misses, for a cell that it does not cover. */
  lemma MissedCell(clock: LocalClock, s: ScheduleWindow, k: nat, userId: nat, resourceId: nat, lo: int, hi: int)
    returns (b: Booking)
    requires k < GridSize(s) && (clock(GridMinute(s, k)) < lo || clock(GridMinute(s, k + 1)) > hi)
    ensures b.userId == userId && b.resourceId == resourceId && Active(b.status) && b.startsAt < b.endsAt
    ensures Fetch([b], userId, resourceId, lo, hi) == []
    ensures
      var slot := GridSlot(clock, s, k);
      slot in FreeSlots(clock, s, []) && Overlap(slot.startsAt, slot.endsAt, b.startsAt, b.endsAt)
  {
    var slot := GridSlot(clock, s, k);
    NextLine(s, k);
    EmptyDayOffers(clock, s, k);
    if slot.startsAt < lo {
      b := Booking(userId, resourceId, if slot.startsAt < slot.endsAt then slot.startsAt else slot.endsAt - 1,
                   slot.startsAt + 1, Pending);
    } else {
      b := Booking(userId, resourceId, slot.endsAt - 1,
                   if slot.startsAt < slot.endsAt then slot.endsAt else slot.startsAt + 1, Pending);
    }
    assert [b][1..] == [];
  }

  /** The day's fetch is enough for all bookings if and only if the day range covers each cell. */
  lemma DayFetchIsEnoughIff(date: Date, zone: Zone, s: ScheduleWindow, userId: nat, resourceId: nat)
    ensures (forall bookings :: SameAsAll(date, zone, s, bookings, userId, resourceId))
        <==> CellsWithin(DayOf(date, zone), s)
  {
    if CellsWithin(DayOf(date, zone), s) {
      forall bookings ensures SameAsAll(date, zone, s, bookings, userId, resourceId) {
        DayFetchIsEnough(date, zone, s, bookings, userId, resourceId);
      }
    } else {
      var k: nat :| k < GridSize(s) && !CellWithin(DayOf(date, zone), s, k);
      var clock := ClockOf(date, zone);
      var b := MissedCell(clock, s, k, userId, resourceId, DayStart(date, zone), DayEnd(date, zone));
      OfferedIff(clock, s, OfResource([b], userId, resourceId), GridSlot(clock, s, k));
      assert b in OfResource([b], userId, resourceId);
      assert !SameAsAll(date, zone, s, [b], userId, resourceId);
    }
  }

  lemma {:induction false} WithoutMisses(slots: seq<TimeSlot>, slot: TimeSlot)
    ensures slot !in Without(slots, slot)
  {
    if slots != [] { WithoutMisses(slots[1..], slot); }
  }

  /** A refused booking leaves its slot on the listing. */
  lemma RefusedStays(
    resources: Resources, userId: nat, resourceId: nat, bookings: seq<Booking>, b: Booking,
    date: Date, zone: Zone, now: int)
    requires resourceId in resources && IsListed(resources, userId, resourceId, bookings, b, date, zone, now)
    requires CreateAnswer(resources, bookings, b).Err?
    ensures !Removes(resources, bookings, b, date, zone, now)
  {
    WithoutMisses(ListingOf(resources, userId, resourceId, bookings, date, zone, now), TimeSlot(b.startsAt, b.endsAt));
  }

  /** A cell on the empty grid is listed just before it starts, unless a fetched booking takes it. */
  lemma CellIsListed(
    resources: Resources, userId: nat, resourceId: nat, bookings: seq<Booking>, b: Booking,
    date: Date, zone: Zone, s: ScheduleWindow, k: nat)
    requires resourceId in resources
    requires PickSchedule(resources[resourceId].schedules, DayOfWeek(date, zone)) == Some(s) && k < GridSize(s)
    requires Fetch(bookings, userId, resourceId, DayStart(date, zone), DayEnd(date, zone)) == []
    requires b.userId == userId && b.resourceId == resourceId && Active(b.status)
    requires TimeSlot(b.startsAt, b.endsAt) == GridSlot(ClockOf(date, zone), s, k)
    ensures IsListed(resources, userId, resourceId, bookings, b, date, zone, b.startsAt - 1)
  {
    EmptyDayOffers(ClockOf(date, zone), s, k);
    FutureSlotsAre(
      FreeSlots(ClockOf(date, zone), s, []), date, zone, b.startsAt - 1, TimeSlot(b.startsAt, b.endsAt));
  }

  /** Where the day range does not cover a cell, one booking is enough: the cell is listed although it clashes with
      it, a booking for it is refused, and it stays listed. */
  lemma MissedCellFails(
    resources: Resources, userId: nat, resourceId: nat, date: Date, zone: Zone, s: ScheduleWindow, k: nat, b: Booking)
    returns (taken: Booking)
    requires Mine(resources, userId, resourceId) && resources[resourceId].isActive
    requires PickSchedule(resources[resourceId].schedules, DayOfWeek(date, zone)) == Some(s)
    requires k < GridSize(s) && !CellWithin(DayOf(date, zone), s, k)
    requires b.userId == userId && b.resourceId == resourceId && Active(b.status)
    requires TimeSlot(b.startsAt, b.endsAt) == GridSlot(ClockOf(date, zone), s, k)
    ensures AfterCreate(resources, [], taken) == [taken]
    ensures ListedInVain(resources, userId, resourceId, [taken], b, date, zone)
    ensures Conflicts([taken], userId, resourceId, b.startsAt, b.endsAt)
  {
    taken := MissedCell(ClockOf(date, zone), s, k, userId, resourceId, DayStart(date, zone), DayEnd(date, zone));
    assert taken in [taken];
    CellIsListed(resources, userId, resourceId, [taken], b, date, zone, s, k);
    RefusedStays(resources, userId, resourceId, [taken], b, date, zone, b.startsAt - 1);
  }

  /** A cell that ends before or when it starts is listed without any booking, refused as an invalid range, and stays
      listed. */
  lemma BrokenCellFails(
    resources: Resources, userId: nat, resourceId: nat, date: Date, zone: Zone, s: ScheduleWindow, k: nat, b: Booking)
    requires Mine(resources, userId, resourceId) && resources[resourceId].isActive
    requires PickSchedule(resources[resourceId].schedules, DayOfWeek(date, zone)) == Some(s)
    requires k < GridSize(s) && !CellRises(ClockOf(date, zone), s, k)
    requires b.userId == userId && b.resourceId == resourceId && Active(b.status)
    requires TimeSlot(b.startsAt, b.endsAt) == GridSlot(ClockOf(date, zone), s, k)
    ensures ListedInVain(resources, userId, resourceId, [], b, date, zone)
    ensures CreateAnswer(resources, [], b) == Err(InvalidRange)
  {
    NextLine(s, k);
    CellIsListed(resources, userId, resourceId, [], b, date, zone, s, k);
    RefusedStays(resources, userId, resourceId, [], b, date, zone, b.startsAt - 1);
  }

  // ----- exactly when they are kept -----

  /** In every zone: every listed slot passes the conflict check if and only if the day range covers every cell. */
  lemma ListsOnlyFreeIff(resources: Resources, userId: nat, resourceId: nat, date: Date, zone: Zone)
    requires Mine(resources, userId, resourceId) && resources[resourceId].isActive
    ensures ListsOnlyFree(resources, userId, resourceId, date, zone) <==> Within(resources, resourceId, date, zone)
  {
    if Within(resources, resourceId, date, zone) {
      WithinListsOnlyFree(resources, userId, resourceId, date, zone);
    } else {
      var s := PickSchedule(resources[resourceId].schedules, DayOfWeek(date, zone)).value;
      var taken, b := SomeMissedCell(resources, userId, resourceId, date, zone, s);
      var now := b.startsAt - 1;
      assert TimeSlot(b.startsAt, b.endsAt) in ListingOf(resources, userId, resourceId, [taken], date, zone, now);
    }
  }

  /** Where it does not cover a forward-running grid, a listed slot is refused and stays listed, with one booking or
      none. */
  lemma UncoveredFails(resources: Resources, userId: nat, resourceId: nat, date: Date, zone: Zone)
    returns (bookings: seq<Booking>, b: Booking)
    requires Mine(resources, userId, resourceId) && resources[resourceId].isActive
    requires !Covered(resources, resourceId, date, zone)
    ensures bookings == [] || (|bookings| == 1 && AfterCreate(resources, [], bookings[0]) == bookings)
    ensures ListedInVain(resources, userId, resourceId, bookings, b, date, zone)
  {
    var s := PickSchedule(resources[resourceId].schedules, DayOfWeek(date, zone)).value;
    bookings, b := SomeCellFails(resources, userId, resourceId, date, zone, s);
  }

  lemma SomeCellFails(
    resources: Resources, userId: nat, resourceId: nat, date: Date, zone: Zone, s: ScheduleWindow)
    returns (bookings: seq<Booking>, b: Booking)
    requires Mine(resources, userId, resourceId) && resources[resourceId].isActive
    requires PickSchedule(resources[resourceId].schedules, DayOfWeek(date, zone)) == Some(s)
    requires !CoversGrid(DayOf(date, zone), s)
    ensures bookings == [] || (|bookings| == 1 && AfterCreate(resources, [], bookings[0]) == bookings)
    ensures ListedInVain(resources, userId, resourceId, bookings, b, date, zone)
  {
    if !GridRises(ClockOf(date, zone), s) {
      bookings := [];
      b := SomeBrokenCell(resources, userId, resourceId, date, zone, s);
    } else {
      var taken;
      taken, b := SomeMissedCell(resources, userId, resourceId, date, zone, s);
      bookings := [taken];
    }
  }

  function BookingFor(userId: nat, resourceId: nat, slot: TimeSlot): Booking {
    Booking(userId, resourceId, slot.startsAt, slot.endsAt, Pending)
  }

  lemma SomeBrokenCell(
    resources: Resources, userId: nat, resourceId: nat, date: Date, zone: Zone, s: ScheduleWindow)
    returns (b: Booking)
    requires Mine(resources, userId, resourceId) && resources[resourceId].isActive
    requires PickSchedule(resources[resourceId].schedules, DayOfWeek(date, zone)) == Some(s)
    requires !GridRises(ClockOf(date, zone), s)
    ensures ListedInVain(resources, userId, resourceId, [], b, date, zone)
    ensures CreateAnswer(resources, [], b) == Err(InvalidRange)
  {
    var k: nat :| k < GridSize(s) && !CellRises(ClockOf(date, zone), s, k);
    b := BookingFor(userId, resourceId, GridSlot(ClockOf(date, zone), s, k));
    BrokenCellFails(resources, userId, resourceId, date, zone, s, k, b);
  }

  lemma SomeMissedCell(
    resources: Resources, userId: nat, resourceId: nat, date: Date, zone: Zone, s: ScheduleWindow)
    returns (taken: Booking, b: Booking)
    requires Mine(resources, userId, resourceId) && resources[resourceId].isActive
    requires PickSchedule(resources[resourceId].schedules, DayOfWeek(date, zone)) == Some(s)
    requires !CellsWithin(DayOf(date, zone), s)
    ensures AfterCreate(resources, [], taken) == [taken]
    ensures ListedInVain(resources, userId, resourceId, [taken], b, date, zone)
    ensures Conflicts([taken], userId, resourceId, b.startsAt, b.endsAt)
  {
    var k: nat :| k < GridSize(s) && !CellWithin(DayOf(date, zone), s, k);
    b := BookingFor(userId, resourceId, GridSlot(ClockOf(date, zone), s, k));
    taken := MissedCellFails(resources, userId, resourceId, date, zone, s, k, b);
  }

  /** In every zone: every listed slot can be booked, and goes alone when it is, if and only if the day range covers
      every cell and later lines of the grid are later instants. */
  lemma GuaranteesIff(resources: Resources, userId: nat, resourceId: nat, date: Date, zone: Zone)
    requires Mine(resources, userId, resourceId) && resources[resourceId].isActive
    ensures BooksWhatItLists(resources, userId, resourceId, date, zone)
        <==> Covered(resources, resourceId, date, zone)
    ensures RemovesWhatItBooks(resources, userId, resourceId, date, zone)
        <==> Covered(resources, resourceId, date, zone)
  {
    if Covered(resources, resourceId, date, zone) {
      CoveredGuarantees(resources, userId, resourceId, date, zone);
    } else {
      var bookings, b := UncoveredFails(resources, userId, resourceId, date, zone);
    }
  }

  predicate EndsWithin(d: Day, s: ScheduleWindow) {
    GridSize(s) > 0 ==> d.start <= d.clock(s.startMinute) && d.clock(GridEnd(s)) <= d.end
  }

  /** Where the grid runs forward its first and last line decide. */
  lemma CellsWithinByEnds(d: Day, s: ScheduleWindow)
    requires GridRises(d.clock, s)
    ensures CellsWithin(d, s) <==> EndsWithin(d, s)
  {
    if EndsWithin(d, s) {
      forall k: nat | k < GridSize(s) ensures CellWithin(d, s, k) {
        GridLinesApart(d.clock, s, 0, k);
        GridLinesApart(d.clock, s, k + 1, GridSize(s));
      }
    } else {
      assert !CellWithin(d, s, 0) || !CellWithin(d, s, GridSize(s) - 1);
    }
  }

  // ----- at a constant offset -----

  /** The date is the last of its month, and the day range misses minute `end` of it: always west of Greenwich,
      and east of it when the first probe for that minute, which reads `offset` too late, is in the next month. */
  predicate MissesTheEnd(date: Date, offset: int, end: int) {
    date.day == MonthLength(MonthIndex(date)) && (offset < 0 || end + offset >= DAY)
  }

  lemma DayStartCovers(date: Date, offset: int, minute: int)
    requires ValidDate(date) && -DAY < offset < DAY && 0 <= minute < DAY
    ensures DayStart(date, Fixed(offset)) <= ClockOf(date, Fixed(offset))(minute)
  {
    FixedConvertIs(Parts(date, 0), offset);
    FixedClock(date, offset, minute);
  }

  lemma DayEndCoversIff(date: Date, offset: int, minute: int)
    requires ValidDate(date) && -DAY < offset < DAY && 0 <= minute < DAY
    ensures ClockOf(date, Fixed(offset))(minute) <= DayEnd(date, Fixed(offset)) <==> !MissesTheEnd(date, offset, minute)
  {
    FixedClock(date, offset, minute);
    DayEndIs(date, offset);
  }

  /** The day range covers the schedule window, and the clock runs forward in it. */
  ghost predicate CoversWindow(d: Day, s: ScheduleWindow) {
    Rising(d.clock, s) && d.start <= d.clock(s.startMinute) && d.clock(s.endMinute) <= d.end
  }

  /** At a constant offset it does exactly unless the day range misses its end. */
  lemma CoversWindowIff(date: Date, offset: int, s: ScheduleWindow)
    requires ValidDate(date) && -DAY < offset < DAY && OfTheDay(s) && Usable(s)
    ensures CoversWindow(DayOf(date, Fixed(offset)), s) <==> !MissesTheEnd(date, offset, s.endMinute)
  {
    FixedRises(date, offset, s);
    DayStartCovers(date, offset, s.startMinute);
    DayEndCoversIff(date, offset, s.endMinute);
  }

  /** A covered window is enough for all the promises. */
  lemma WindowGuarantees(
    resources: Resources, userId: nat, resourceId: nat, date: Date, zone: Zone, s: ScheduleWindow)
    requires Mine(resources, userId, resourceId) && resources[resourceId].isActive
    requires PickSchedule(resources[resourceId].schedules, DayOfWeek(date, zone)) == Some(s)
    requires CoversWindow(DayOf(date, zone), s)
    ensures ListsOnlyFree(resources, userId, resourceId, date, zone)
    ensures BooksWhatItLists(resources, userId, resourceId, date, zone)
    ensures RemovesWhatItBooks(resources, userId, resourceId, date, zone)
  {
    WindowCoversGrid(DayOf(date, zone), s);
    WithinListsOnlyFree(resources, userId, resourceId, date, zone);
    CoveredGuarantees(resources, userId, resourceId, date, zone);
  }

  lemma WindowCoversGrid(d: Day, s: ScheduleWindow)
    requires CoversWindow(d, s)
    ensures CoversGrid(d, s)
  {
    RisingGrid(d.clock, s);
    CellsWithinByEnds(d, s);
    if GridSize(s) > 0 { GridInWindow(s, GridSize(s)); }
  }

  lemma CoversGridIff(date: Date, offset: int, s: ScheduleWindow)
    requires ValidDate(date) && -DAY < offset < DAY && OfTheDay(s)
    ensures GridRises(ClockOf(date, Fixed(offset)), s)
    ensures CellsWithin(DayOf(date, Fixed(offset)), s) <==> GridSize(s) == 0 || !MissesTheEnd(date, offset, GridEnd(s))
  {
    FixedRises(date, offset, s);
    RisingGrid(ClockOf(date, Fixed(offset)), s);
    CellsWithinByEnds(DayOf(date, Fixed(offset)), s);
    if GridSize(s) > 0 {
      GridInWindow(s, GridSize(s));
      DayStartCovers(date, offset, s.startMinute);
      DayEndCoversIff(date, offset, GridEnd(s));
    }
  }

  /** The schedule of the date has no cell, or the day range does not miss the end of its last one. */
  predicate Trustworthy(schedule: Option<ScheduleWindow>, date: Date, offset: int) {
    schedule.Some? && GridSize(schedule.value) > 0 ==> !MissesTheEnd(date, offset, GridEnd(schedule.value))
  }

  /** At a constant offset the listing keeps each promise if and only if it is trustworthy. */
  lemma FixedGuaranteesIff(resources: Resources, userId: nat, resourceId: nat, date: Date, offset: int)
    requires Mine(resources, userId, resourceId) && resources[resourceId].isActive
    requires ValidDate(date) && -DAY < offset < DAY
    requires forall s | s in resources[resourceId].schedules :: OfTheDay(s)
    ensures
      var zone := Fixed(offset);
      var schedule := PickSchedule(resources[resourceId].schedules, DayOfWeek(date, zone));
      && (ListsOnlyFree(resources, userId, resourceId, date, zone) <==> Trustworthy(schedule, date, offset))
      && (BooksWhatItLists(resources, userId, resourceId, date, zone) <==> Trustworthy(schedule, date, offset))
      && (RemovesWhatItBooks(resources, userId, resourceId, date, zone) <==> Trustworthy(schedule, date, offset))
  {
    var zone := Fixed(offset);
    var schedule := PickSchedule(resources[resourceId].schedules, DayOfWeek(date, zone));
    if schedule.Some? { CoversGridIff(date, offset, schedule.value); }
    ListsOnlyFreeIff(resources, userId, resourceId, date, zone);
    GuaranteesIff(resources, userId, resourceId, date, zone);
  }

  // ----- near a change of offset -----

  /** Both midnights of a date are near the change, and the probes for them stay in their months. */
  ghost predicate Midnights(date: Date, zone: Zone, at: int, before: int, after: int) {
    && OneChangeNear(zone, DayNumber(date) * DAY, at, before, after)
    && OneChangeNear(zone, (DayNumber(date) + 1) * DAY, at, before, after)
    && StaysInMonth(Parts(date, 0), zone, at, before, after)
    && StaysInMonth(Parts(NextDate(date), 0), zone, at, before, after)
  }

  predicate NearMinute(clock: LocalClock, midnight: int, m: int, at: int, before: int, after: int) {
    clock(m) == midnight + m - OffsetUsed(midnight + m, at, before, after)
  }

  ghost predicate NearMinutes(clock: LocalClock, midnight: int, s: ScheduleWindow, at: int, before: int, after: int) {
    forall m | s.startMinute <= m <= s.endMinute :: NearMinute(clock, midnight, m, at, before, after)
  }

  /** What a clock shows of such a date: every minute of the window, and both midnights. */
  ghost predicate NearClock(d: Day, midnight: int, s: ScheduleWindow, at: int, before: int, after: int) {
    && OfTheDay(s) && NearMinutes(d.clock, midnight, s, at, before, after)
    && d.start == midnight - OffsetUsed(midnight, at, before, after)
    && d.end == midnight + DAY - OffsetUsed(midnight + DAY, at, before, after)
  }

  lemma ChangeDayClock(date: Date, zone: Zone, s: ScheduleWindow, at: int, before: int, after: int)
    requires ChangeDay(date, zone, s, at, before, after) && Midnights(date, zone, at, before, after)
    ensures NearClock(DayOf(date, zone), DayNumber(date) * DAY, s, at, before, after)
  {
    ChangeMinutes(date, zone, s, at, before, after);
    FirstMidnight(date, zone, at, before, after);
    NextMidnight(date, zone, at, before, after);
  }

  lemma ChangeMinutes(date: Date, zone: Zone, s: ScheduleWindow, at: int, before: int, after: int)
    requires ChangeDay(date, zone, s, at, before, after)
    ensures NearMinutes(ClockOf(date, zone), DayNumber(date) * DAY, s, at, before, after)
  {
    forall m | s.startMinute <= m <= s.endMinute
      ensures NearMinute(ClockOf(date, zone), DayNumber(date) * DAY, m, at, before, after)
    {
      ChangeClock(date, zone, s, at, before, after, m);
    }
  }

  lemma FirstMidnight(date: Date, zone: Zone, at: int, before: int, after: int)
    requires ValidDate(date) && Mild(zone) && Midnights(date, zone, at, before, after)
    ensures
      var midnight := DayNumber(date) * DAY;
      DayStart(date, zone) == midnight - OffsetUsed(midnight, at, before, after)
  {
    ChangeConvertIs(Parts(date, 0), zone, at, before, after);
  }

  lemma NextMidnight(date: Date, zone: Zone, at: int, before: int, after: int)
    requires ValidDate(date) && Mild(zone) && Midnights(date, zone, at, before, after)
    ensures
      var midnight := DayNumber(date) * DAY + DAY;
      DayEnd(date, zone) == midnight - OffsetUsed(midnight, at, before, after)
  {
    NextDateIsFirstIff(date);
    ChangeConvertIs(Parts(NextDate(date), 0), zone, at, before, after);
  }

  /** The conversion falls back from midnight to the cell's start, or from its end to midnight. */
  predicate CellFallsOut(midnight: int, s: ScheduleWindow, k: nat, at: int, before: int, after: int) {
    || FallsBack(midnight, midnight + GridMinute(s, k), at, before, after)
    || FallsBack(midnight + GridMinute(s, k + 1), midnight + DAY, at, before, after)
  }

  lemma CellWithinIff(d: Day, midnight: int, s: ScheduleWindow, at: int, before: int, after: int, k: nat)
    requires NearClock(d, midnight, s, at, before, after) && k < GridSize(s)
    ensures CellWithin(d, s, k) <==> !CellFallsOut(midnight, s, k, at, before, after)
  {
    GridInWindow(s, k);
    GridInWindow(s, k + 1);
    assert NearMinute(d.clock, midnight, GridMinute(s, k), at, before, after);
    assert NearMinute(d.clock, midnight, GridMinute(s, k + 1), at, before, after);
    NotEarlierIff(midnight, midnight + GridMinute(s, k), at, before, after);
    NotEarlierIff(midnight + GridMinute(s, k + 1), midnight + DAY, at, before, after);
  }

  lemma CellsWithinIff(d: Day, midnight: int, s: ScheduleWindow, at: int, before: int, after: int)
    requires NearClock(d, midnight, s, at, before, after)
    ensures CellsWithin(d, s) <==> forall k: nat | k < GridSize(s) :: !CellFallsOut(midnight, s, k, at, before, after)
  {
    forall k: nat | k < GridSize(s)
      ensures CellWithin(d, s, k) <==> !CellFallsOut(midnight, s, k, at, before, after)
    {
      CellWithinIff(d, midnight, s, at, before, after, k);
    }
  }

  /** The conversion falls back neither from midnight to the grid's start nor from its end to midnight. */
  predicate EndsHold(midnight: int, s: ScheduleWindow, at: int, before: int, after: int) {
    GridSize(s) > 0 ==>
      !FallsBack(midnight, midnight + s.startMinute, at, before, after)
      && !FallsBack(midnight + GridEnd(s), midnight + DAY, at, before, after)
  }

  lemma EndsWithinIff(d: Day, midnight: int, s: ScheduleWindow, at: int, before: int, after: int)
    requires NearClock(d, midnight, s, at, before, after)
    ensures EndsWithin(d, s) <==> EndsHold(midnight, s, at, before, after)
  {
    if GridSize(s) > 0 {
      GridInWindow(s, GridSize(s));
      assert NearMinute(d.clock, midnight, s.startMinute, at, before, after);
      assert NearMinute(d.clock, midnight, GridEnd(s), at, before, after);
      NotEarlierIff(midnight, midnight + s.startMinute, at, before, after);
      NotEarlierIff(midnight + GridEnd(s), midnight + DAY, at, before, after);
    }
  }

  /** Nor does any cell of the grid lie across a stumble. */
  ghost predicate Sound(date: Date, s: ScheduleWindow, at: int, before: int, after: int) {
    && (forall k: nat | k < GridSize(s) :: !CellStumbles(date, s, k, at, before, after))
    && EndsHold(DayNumber(date) * DAY, s, at, before, after)
  }

  lemma ChangeCoversGridIff(date: Date, zone: Zone, s: ScheduleWindow, at: int, before: int, after: int)
    requires ChangeDay(date, zone, s, at, before, after) && Midnights(date, zone, at, before, after)
    ensures CoversGrid(DayOf(date, zone), s) <==> Sound(date, s, at, before, after)
  {
    ChangeGridRisesIff(date, zone, s, at, before, after);
    ChangeDayClock(date, zone, s, at, before, after);
    EndsWithinIff(DayOf(date, zone), DayNumber(date) * DAY, s, at, before, after);
    if GridRises(ClockOf(date, zone), s) { CellsWithinByEnds(DayOf(date, zone), s); }
  }

  /** Near a change of offset, with every probe in the month, the listing keeps its promises if and only if its grid is
      sound; that it lists only free slots needs no more than that no cell falls out of the day. */
  lemma ChangeGuaranteesIff(
    resources: Resources, userId: nat, resourceId: nat, date: Date, zone: Zone, s: ScheduleWindow,
    at: int, before: int, after: int)
    requires Mine(resources, userId, resourceId) && resources[resourceId].isActive
    requires PickSchedule(resources[resourceId].schedules, DayOfWeek(date, zone)) == Some(s)
    requires ChangeDay(date, zone, s, at, before, after) && Midnights(date, zone, at, before, after)
    ensures BooksWhatItLists(resources, userId, resourceId, date, zone) <==> Sound(date, s, at, before, after)
    ensures RemovesWhatItBooks(resources, userId, resourceId, date, zone) <==> Sound(date, s, at, before, after)
    ensures ListsOnlyFree(resources, userId, resourceId, date, zone) <==>
      forall k: nat | k < GridSize(s) :: !CellFallsOut(DayNumber(date) * DAY, s, k, at, before, after)
  {
    ChangeCoversGridIff(date, zone, s, at, before, after);
    ChangeDayClock(date, zone, s, at, before, after);
    CellsWithinIff(DayOf(date, zone), DayNumber(date) * DAY, s, at, before, after);
    ListsOnlyFreeIff(resources, userId, resourceId, date, zone);
    GuaranteesIff(resources, userId, resourceId, date, zone);
  }

  // ----- at the edge of a month, near a change of offset -----

  /** A date near a change of offset, by arithmetic alone. */
  function NearDay(date: Date, at: int, before: int, after: int): Day {
    Day(m => InstantNear(date, m, at, before, after), InstantNear(date, 0, at, before, after),
        InstantNear(NextDate(date), 0, at, before, after))
  }

  predicate SameMinute(d: Day, e: Day, m: int) { d.clock(m) == e.clock(m) }

  /** Two days that a schedule cannot tell apart. */
  ghost predicate SameDay(d: Day, e: Day, s: ScheduleWindow) {
    && d.start == e.start && d.end == e.end
    && forall m | s.startMinute <= m <= s.endMinute :: SameMinute(d, e, m)
  }

  lemma SameGrid(d: Day, e: Day, s: ScheduleWindow)
    requires SameDay(d, e, s)
    ensures CellsWithin(d, s) <==> CellsWithin(e, s)
    ensures GridRises(d.clock, s) <==> GridRises(e.clock, s)
  {
    forall k: nat | k < GridSize(s)
      ensures CellRises(d.clock, s, k) <==> CellRises(e.clock, s, k)
      ensures CellWithin(d, s, k) <==> CellWithin(e, s, k)
    {
      GridInWindow(s, k);
      GridInWindow(s, k + 1);
      assert SameMinute(d, e, GridMinute(s, k)) && SameMinute(d, e, GridMinute(s, k + 1));
    }
  }

  lemma EdgeDayIs(date: Date, zone: Zone, s: ScheduleWindow, at: int, before: int, after: int)
    requires EdgeDay(date, zone, s, at, before, after)
    requires Settles(Parts(date, 0), zone, at, before, after)
    requires Settles(Parts(NextDate(date), 0), zone, at, before, after)
    ensures SameDay(DayOf(date, zone), NearDay(date, at, before, after), s)
  {
    forall m | s.startMinute <= m <= s.endMinute
      ensures SameMinute(DayOf(date, zone), NearDay(date, at, before, after), m)
    {
      EdgeClock(date, zone, s, at, before, after, m);
    }
    EdgeMidnights(date, zone, at, before, after);
  }

  lemma EdgeMidnights(date: Date, zone: Zone, at: int, before: int, after: int)
    requires ValidDate(date) && Mild(zone)
    requires Settles(Parts(date, 0), zone, at, before, after)
    requires Settles(Parts(NextDate(date), 0), zone, at, before, after)
    ensures DayStart(date, zone) == InstantNear(date, 0, at, before, after)
    ensures DayEnd(date, zone) == InstantNear(NextDate(date), 0, at, before, after)
  {
    NextDateIsFirstIff(date);
    SettledConvertIs(date, 0, zone, at, before, after);
    SettledConvertIs(NextDate(date), 0, zone, at, before, after);
  }

  /** On every date near a change of offset, the first and last of a month included, arithmetic decides: the listing has
      only free slots exactly when the day so computed covers each cell, and keeps its other promises exactly when the
      grid also runs forward. */
  lemma EdgeGuaranteesIff(
    resources: Resources, userId: nat, resourceId: nat, date: Date, zone: Zone, s: ScheduleWindow,
    at: int, before: int, after: int)
    requires Mine(resources, userId, resourceId) && resources[resourceId].isActive
    requires PickSchedule(resources[resourceId].schedules, DayOfWeek(date, zone)) == Some(s)
    requires EdgeDay(date, zone, s, at, before, after)
    requires Settles(Parts(date, 0), zone, at, before, after)
    requires Settles(Parts(NextDate(date), 0), zone, at, before, after)
    ensures ListsOnlyFree(resources, userId, resourceId, date, zone)
        <==> CellsWithin(NearDay(date, at, before, after), s)
    ensures BooksWhatItLists(resources, userId, resourceId, date, zone)
        <==> CoversGrid(NearDay(date, at, before, after), s)
    ensures RemovesWhatItBooks(resources, userId, resourceId, date, zone)
        <==> CoversGrid(NearDay(date, at, before, after), s)
  {
    EdgeDayIs(date, zone, s, at, before, after);
    SameGrid(DayOf(date, zone), NearDay(date, at, before, after), s);
    ListsOnlyFreeIff(resources, userId, resourceId, date, zone);
    GuaranteesIff(resources, userId, resourceId, date, zone);
  }

  // ----- three ways to fail -----

  /** East of Greenwich on 31 January of a common year, a slot whose end, but not its start, probes into February ends
      59 days late, and is offered although any booking in February clashes with it. */
  lemma JanuaryOffersTwoMonths(date: Date, offset: int, s: ScheduleWindow, b: Booking, slot: TimeSlot)
    requires JanuaryEnd(date) && 0 < offset < DAY
    requires OfTheDay(s) && Usable(s) && s.startMinute + s.slotMinutes == s.endMinute
    requires s.startMinute + offset < DAY <= s.endMinute + offset
    requires slot.startsAt == DayNumber(date) * DAY + s.startMinute - offset
    requires slot.endsAt == (DayNumber(date) + 59) * DAY + s.endMinute - offset
    requires Active(b.status) && b.startsAt < b.endsAt
    requires (DayNumber(date) + 1) * DAY <= b.startsAt && b.endsAt <= (DayNumber(date) + 29) * DAY
    ensures OffersTaken(date, Fixed(offset), s, b, slot)
  {
    JanuaryClock(date, offset, s.startMinute);
    JanuaryClock(date, offset, s.endMinute);
    OneLongSlot(ClockOf(date, Fixed(offset)), s, b, DayStart(date, Fixed(offset)), DayEnd(date, Fixed(offset)), slot);
  }

  /** With `b` booked the slot is offered, although it fails the conflict check. */
  predicate OffersTaken(date: Date, zone: Zone, s: ScheduleWindow, b: Booking, slot: TimeSlot) {
    var fetched := Fetch([b], b.userId, b.resourceId, DayStart(date, zone), DayEnd(date, zone));
    && slot in FreeSlots(ClockOf(date, zone), s, fetched)
    && Conflicts([b], b.userId, b.resourceId, slot.startsAt, slot.endsAt)
  }

  lemma JanuaryClock(date: Date, offset: int, minute: int)
    requires JanuaryEnd(date)
    requires 0 < offset < DAY && 0 <= minute < DAY
    ensures ClockOf(date, Fixed(offset))(minute)
         == DayNumber(date) * DAY + minute - offset + if minute + offset >= DAY then 59 * DAY else 0
    ensures DayEnd(date, Fixed(offset)) == (DayNumber(date) + 1) * DAY - offset
  {
    FixedClock(date, offset, minute);
    DayEndIs(date, offset);
  }

  lemma OneLongSlot(clock: LocalClock, s: ScheduleWindow, b: Booking, lo: int, hi: int, slot: TimeSlot)
    requires slot == TimeSlot(clock(s.startMinute), clock(s.endMinute))
    requires Usable(s) && s.startMinute + s.slotMinutes == s.endMinute
    requires Active(b.status) && hi <= b.startsAt
    requires Overlap(slot.startsAt, slot.endsAt, b.startsAt, b.endsAt)
    ensures slot in FreeSlots(clock, s, Fetch([b], b.userId, b.resourceId, lo, hi))
    ensures Conflicts([b], b.userId, b.resourceId, slot.startsAt, slot.endsAt)
  {
    GridSizeIs(s, 0);
    EmptyDayOffers(clock, s, 0);
    assert [b][1..] == [] && b in [b];
  }

  /** Asia/Kolkata is +05:30: there it is the slot from 18:00 to 18:30. */
  lemma KolkataOffersTwoMonths(date: Date, offset: int, s: ScheduleWindow, b: Booking, slot: TimeSlot)
    requires ValidDate(date) && date.month == 1 && date.day == 31 && !IsLeapYear(date.year) && offset == 330
    requires s.startMinute == 18 * 60 && s.endMinute == 18 * 60 + 30 && s.slotMinutes == 30
    requires slot == TimeSlot(DayNumber(date) * DAY + 750, (DayNumber(date) + 59) * DAY + 780)
    requires Active(b.status) && b.startsAt < b.endsAt
    requires (DayNumber(date) + 1) * DAY <= b.startsAt && b.endsAt <= (DayNumber(date) + 29) * DAY
    ensures OffersTaken(date, Fixed(offset), s, b, slot)
  {
    JanuaryEndIff(date);
    JanuaryOffersTwoMonths(date, offset, s, b, slot);
  }

  /** West of Greenwich the day range of the last day of a month ends before it starts. */
  lemma WestMonthEndRunsBackwards(date: Date, offset: int)
    requires ValidDate(date) && date.day == MonthLength(MonthIndex(date)) && -DAY < offset < 0
    ensures DayEnd(date, Fixed(offset)) < DayStart(date, Fixed(offset))
  {
    DayEndIs(date, offset);
    FixedConvertIs(Parts(date, 0), offset);
  }

  /** There no booking of that day is fetched, so its slot is offered again. */
  lemma WestMonthEndOffersAgain(date: Date, offset: int, s: ScheduleWindow, k: nat, b: Booking)
    requires ValidDate(date) && date.day == MonthLength(MonthIndex(date)) && -DAY < offset < 0
    requires OfTheDay(s) && k < GridSize(s) && Active(b.status)
    requires TimeSlot(b.startsAt, b.endsAt) == GridSlot(ClockOf(date, Fixed(offset)), s, k)
    ensures OffersTaken(date, Fixed(offset), s, b, TimeSlot(b.startsAt, b.endsAt))
  {
    var zone := Fixed(offset);
    WestMonthEndRunsBackwards(date, offset);
    FixedRises(date, offset, s);
    RisingGrid(ClockOf(date, zone), s);
    GridApart(ClockOf(date, zone), s, k, k);
    GridInWindow(s, 0);
    DayStartCovers(date, offset, s.startMinute);
    EmptyDayOffers(ClockOf(date, zone), s, k);
    assert b in [b];
  }

  /** On the day when clocks go forward at 02:00 from -05:00 to -04:00 the slot at 01:30 is listed with its end before
      its start, refused, and stays listed. */
  lemma SpringForwardRefusesASlot(
    resources: Resources, userId: nat, resourceId: nat, date: Date, zone: Zone, s: ScheduleWindow, b: Booking)
    requires Mine(resources, userId, resourceId) && resources[resourceId].isActive
    requires ValidDate(date) && 2 <= date.day < MonthLength(MonthIndex(date))
    requires zone == OneChange(DayNumber(date) * DAY + 420, -300, -240)
    requires PickSchedule(resources[resourceId].schedules, DayOfWeek(date, zone)) == Some(s)
    requires s.startMinute == 60 && s.endMinute == 150 && s.slotMinutes == 30
    requires b == Booking(userId, resourceId, DayNumber(date) * DAY + 390, DayNumber(date) * DAY + 360, Pending)
    ensures ListedInVain(resources, userId, resourceId, [], b, date, zone)
    ensures CreateAnswer(resources, [], b) == Err(InvalidRange)
  {
    SpringForwardClock(date, s);
    BrokenCellFails(resources, userId, resourceId, date, zone, s, 1, b);
  }
}
