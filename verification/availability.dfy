/** Bookings of resources, and the slot listing a tenant sees. */
module Availability {
  import opened Wrappers
  import opened Calendar
  import opened CorrectionLoop
  import opened Timezone
  import opened Slots

  datatype Resource = Resource(userId: nat, isActive: bool, schedules: seq<ScheduleWindow>)

  datatype Error = ResourceNotFound | ResourceInactive | InvalidRange | AlreadyBooked | BookingNotFound

  type Resources = map<nat, Resource>

  predicate Mine(resources: Resources, userId: nat, resourceId: nat) {
    resourceId in resources && resources[resourceId].userId == userId
  }

  /** The query of `assertNoConflict`. */
  predicate Conflicts(bookings: seq<Booking>, userId: nat, resourceId: nat, startsAt: int, endsAt: int) {
    exists b :: b in bookings && b.userId == userId && b.resourceId == resourceId && Active(b.status)
      && b.startsAt < endsAt && b.endsAt > startsAt
  }

  function CreateAnswer(resources: Resources, bookings: seq<Booking>, b: Booking): Result<nat, Error> {
    if !Mine(resources, b.userId, b.resourceId) then Err(ResourceNotFound)
    else if !resources[b.resourceId].isActive then Err(ResourceInactive)
    else if b.endsAt <= b.startsAt then Err(InvalidRange)
    else if Conflicts(bookings, b.userId, b.resourceId, b.startsAt, b.endsAt) then Err(AlreadyBooked)
    else Ok(|bookings|)
  }

  function AfterCreate(resources: Resources, bookings: seq<Booking>, b: Booking): seq<Booking> {
    if CreateAnswer(resources, bookings, b).Ok? then bookings + [b] else bookings
  }

  function UpdateAnswer(bookings: seq<Booking>, userId: nat, id: nat): Result<nat, Error> {
    if id < |bookings| && bookings[id].userId == userId then Ok(id) else Err(BookingNotFound)
  }

  function AfterUpdate(bookings: seq<Booking>, userId: nat, id: nat, status: BookingStatus): seq<Booking> {
    if UpdateAnswer(bookings, userId, id).Ok? then bookings[id := bookings[id].(status := status)] else bookings
  }

  // ----- the listing -----

  predicate Touches(b: Booking, userId: nat, resourceId: nat, dayStart: int, dayEnd: int) {
    b.userId == userId && b.resourceId == resourceId && b.startsAt < dayEnd && b.endsAt > dayStart && Active(b.status)
  }

  /** The bookings `slotsForResource` fetches: active, of the resource, touching the day. */
  function Fetch(bookings: seq<Booking>, userId: nat, resourceId: nat, dayStart: int, dayEnd: int): (r: seq<Booking>)
    ensures forall b :: b in r <==> b in bookings && Touches(b, userId, resourceId, dayStart, dayEnd)
  {
    if bookings == [] then []
    else
      var rest := Fetch(bookings[1..], userId, resourceId, dayStart, dayEnd);
      if Touches(bookings[0], userId, resourceId, dayStart, dayEnd) then [bookings[0]] + rest else rest
  }

  function Listing(bookings: seq<Booking>, userId: nat, resourceId: nat, schedules: seq<ScheduleWindow>,
                   date: Date, zone: Zone, now: int): seq<TimeSlot>
  {
    var schedule := PickSchedule(schedules, DayOfWeek(date, zone));
    if schedule.None? then []
    else
      var fetched := Fetch(bookings, userId, resourceId, DayStart(date, zone), DayEnd(date, zone));
      FutureSlots(FreeSlots(ClockOf(date, zone), schedule.value, fetched), date, zone, now)
  }

  class AvailabilityService {
    const resources: Resources
    var bookings: seq<Booking>

    constructor (resources: Resources)
      ensures this.resources == resources && bookings == []
    {
      this.resources, this.bookings := resources, [];
    }

    method AssertNoConflict(userId: nat, resourceId: nat, startsAt: int, endsAt: int) returns (free: bool)
      ensures free == !Conflicts(bookings, userId, resourceId, startsAt, endsAt)
    {
      for i := 0 to |bookings|
        invariant !Conflicts(bookings[..i], userId, resourceId, startsAt, endsAt)
      {
        var b := bookings[i];
        if b.userId == userId && b.resourceId == resourceId && Active(b.status)
          && b.startsAt < endsAt && b.endsAt > startsAt
        {
          return false;
        }
        assert bookings[..i + 1] == bookings[..i] + [b];
      }
      assert bookings[..|bookings|] == bookings;
      return true;
    }

    method CreateBooking(request: Booking) returns (answer: Result<nat, Error>)
      modifies this`bookings
      ensures answer == CreateAnswer(resources, old(bookings), request)
      ensures bookings == AfterCreate(resources, old(bookings), request)
    {
      if request.resourceId !in resources || resources[request.resourceId].userId != request.userId {
        return Err(ResourceNotFound);
      }
      if !resources[request.resourceId].isActive { return Err(ResourceInactive); }
      if request.endsAt <= request.startsAt { return Err(InvalidRange); }
      var free := AssertNoConflict(request.userId, request.resourceId, request.startsAt, request.endsAt);
      if !free { return Err(AlreadyBooked); }
      bookings := bookings + [request];
      return Ok(|bookings| - 1);
    }

    method UpdateBookingStatus(userId: nat, id: nat, status: BookingStatus) returns (answer: Result<nat, Error>)
      modifies this`bookings
      ensures answer == UpdateAnswer(old(bookings), userId, id)
      ensures bookings == AfterUpdate(old(bookings), userId, id, status)
    {
      if id >= |bookings| || bookings[id].userId != userId { return Err(BookingNotFound); }
      bookings := bookings[id := bookings[id].(status := status)];
      return Ok(id);
    }

    method SlotsForResource(userId: nat, resourceId: nat, date: Date, zone: Zone, now: int)
      returns (slots: seq<TimeSlot>)
      requires resourceId in resources
      ensures slots == Listing(bookings, userId, resourceId, resources[resourceId].schedules, date, zone, now)
    {
      var schedule := PickSchedule(resources[resourceId].schedules, DayOfWeek(date, zone));
      if schedule.None? { return []; }
      var dayStart, dayEnd := DayStart(date, zone), DayEnd(date, zone);
      var fetched := Fetch(bookings, userId, resourceId, dayStart, dayEnd);
      slots := GenerateAvailableSlots(date, zone, schedule.value, fetched);
      slots := FutureSlots(slots, date, zone, now);
    }
  }

  // ----- no double booking -----

  predicate Clash(a: Booking, b: Booking) {
    && a.resourceId == b.resourceId && Active(a.status) && Active(b.status)
    && Overlap(a.startsAt, a.endsAt, b.startsAt, b.endsAt)
  }

  /** Active bookings of one resource are pairwise disjoint, and booked by the resource's owner. */
  ghost predicate BookingsInv(resources: Resources, bookings: seq<Booking>) {
    && (forall i, j | 0 <= i < j < |bookings| :: !Clash(bookings[i], bookings[j]))
    && (forall i | 0 <= i < |bookings| :: Mine(resources, bookings[i].userId, bookings[i].resourceId))
  }

  /** The resource is free for the whole of the range. */
  ghost predicate FreeFor(bookings: seq<Booking>, resourceId: nat, startsAt: int, endsAt: int) {
    forall i | 0 <= i < |bookings| && bookings[i].resourceId == resourceId && Active(bookings[i].status) ::
      bookings[i].endsAt <= startsAt || endsAt <= bookings[i].startsAt
  }

  /** A booking is accepted exactly when it is of the caller's own active resource, ends after it starts, and every
      active booking of the resource ends before it or starts after it. */
  lemma BookableIff(resources: Resources, bookings: seq<Booking>, b: Booking)
    requires BookingsInv(resources, bookings)
    ensures CreateAnswer(resources, bookings, b).Ok? <==>
      (&& b.resourceId in resources && resources[b.resourceId].userId == b.userId && resources[b.resourceId].isActive
       && b.startsAt < b.endsAt && FreeFor(bookings, b.resourceId, b.startsAt, b.endsAt))
  {
    if Mine(resources, b.userId, b.resourceId) {
      forall i | 0 <= i < |bookings| && bookings[i].resourceId == b.resourceId
        ensures bookings[i] in bookings && bookings[i].userId == b.userId
      {
        assert Mine(resources, bookings[i].userId, bookings[i].resourceId);
      }
    }
  }

  lemma CreateKeepsDisjoint(resources: Resources, bookings: seq<Booking>, b: Booking)
    requires BookingsInv(resources, bookings)
    ensures BookingsInv(resources, AfterCreate(resources, bookings, b))
  {
    if CreateAnswer(resources, bookings, b).Ok? {
      forall i | 0 <= i < |bookings| ensures !Clash(bookings[i], b) {
        assert bookings[i] in bookings;
      }
    }
  }

  /** A status change brings a booking back to life over another one. */
  predicate RevivesOverAnother(bookings: seq<Booking>, id: nat, status: BookingStatus) {
    && id < |bookings| && Active(status) && !Active(bookings[id].status)
    && exists j :: 0 <= j < |bookings| && j != id && Clash(bookings[id].(status := status), bookings[j])
  }

  /** `updateBookingStatus` does not check for conflicts: it keeps bookings disjoint exactly when it does
      not revive an inactive booking over an active one.  Confirming, cancelling and completing an active
      booking are always safe. */
  lemma UpdateKeepsDisjointIff(
    resources: Resources, bookings: seq<Booking>, userId: nat, id: nat, status: BookingStatus)
    requires BookingsInv(resources, bookings) && UpdateAnswer(bookings, userId, id).Ok?
    ensures BookingsInv(resources, AfterUpdate(bookings, userId, id, status))
        <==> !RevivesOverAnother(bookings, id, status)
  {
    var after := AfterUpdate(bookings, userId, id, status);
    if RevivesOverAnother(bookings, id, status) {
      var j :| 0 <= j < |bookings| && j != id && Clash(after[id], bookings[j]);
      assert Clash(after[if j < id then j else id], after[if j < id then id else j]);
    } else {
      forall i, j | 0 <= i < j < |after| ensures !Clash(after[i], after[j]) {
        assert !Clash(bookings[i], bookings[j]);
        if i == id || j == id { ChangedStaysApart(bookings, id, status, if i == id then j else i); }
      }
    }
  }

  lemma ChangedStaysApart(bookings: seq<Booking>, id: nat, status: BookingStatus, other: nat)
    requires id < |bookings| && other < |bookings| && other != id && !RevivesOverAnother(bookings, id, status)
    requires !Clash(bookings[id], bookings[other])
    ensures !Clash(bookings[id].(status := status), bookings[other])
  {
  }

  /** One hour booked, cancelled, booked again and the first booking revived: two bookings at once. */
  lemma RevivalDoubleBooks()
    ensures var resources := map[0 := Resource(7, true, [])];
      var b := Booking(7, 0, 600, 660, BookingStatus.Confirmed);
      var twice := AfterCreate(resources, AfterUpdate(AfterCreate(resources, [], b), 7, 0, Cancelled), b);
      && BookingsInv(resources, twice)
      && !BookingsInv(resources, AfterUpdate(twice, 7, 0, BookingStatus.Confirmed))
  {
    var resources := map[0 := Resource(7, true, [])];
    var b := Booking(7, 0, 600, 660, BookingStatus.Confirmed);
    var cancelled := [b.(status := Cancelled)];
    assert AfterUpdate([b], 7, 0, Cancelled) == cancelled;
    assert AfterCreate(resources, [], b) == [b];
    assert AfterCreate(resources, cancelled, b) == [b.(status := Cancelled), b];
    var revived := AfterUpdate([b.(status := Cancelled), b], 7, 0, BookingStatus.Confirmed);
    assert Clash(revived[0], revived[1]);
  }

  /** The conflict check and the insert are separate statements.  Any number of requests that all checked before any of
      them inserted leave the bookings disjoint exactly when no two of them clash. */
  lemma CheckedTogetherDisjointIff(resources: Resources, bookings: seq<Booking>, requests: seq<Booking>)
    requires BookingsInv(resources, bookings)
    requires forall k | 0 <= k < |requests| :: CreateAnswer(resources, bookings, requests[k]).Ok?
    ensures BookingsInv(resources, bookings + requests)
        <==> forall j, k | 0 <= j < k < |requests| :: !Clash(requests[j], requests[k])
  {
    var n, all := |bookings|, bookings + requests;
    forall i, k | 0 <= i < n && 0 <= k < |requests| ensures !Clash(bookings[i], requests[k]) {
      assert CreateAnswer(resources, bookings, requests[k]).Ok? && bookings[i] in bookings;
    }
    if BookingsInv(resources, all) {
      forall j, k | 0 <= j < k < |requests| ensures !Clash(requests[j], requests[k]) {
        assert !Clash(all[n + j], all[n + k]);
      }
    }
    forall k | 0 <= k < |requests| ensures Mine(resources, requests[k].userId, requests[k].resourceId) {
      assert CreateAnswer(resources, bookings, requests[k]).Ok?;
    }
  }

  datatype Op = Create(booking: Booking) | Update(userId: nat, id: nat, status: BookingStatus)

  function After(resources: Resources, bookings: seq<Booking>, op: Op): seq<Booking> {
    match op
    case Create(b) => AfterCreate(resources, bookings, b)
    case Update(u, id, status) => AfterUpdate(bookings, u, id, status)
  }

  function Run(resources: Resources, bookings: seq<Booking>, ops: seq<Op>): seq<Booking>
    decreases ops
  {
    if ops == [] then bookings else Run(resources, After(resources, bookings, ops[0]), ops[1..])
  }

  /** No call of the run revives a booking over another. */
  predicate NoRevival(resources: Resources, bookings: seq<Booking>, ops: seq<Op>)
    decreases ops
  {
    ops == [] ||
    (&& (ops[0].Update? && UpdateAnswer(bookings, ops[0].userId, ops[0].id).Ok?
         ==> !RevivesOverAnother(bookings, ops[0].id, ops[0].status))
     && NoRevival(resources, After(resources, bookings, ops[0]), ops[1..]))
  }

  lemma {:induction false} RunKeepsDisjoint(resources: Resources, bookings: seq<Booking>, ops: seq<Op>)
    requires BookingsInv(resources, bookings) && NoRevival(resources, bookings, ops)
    ensures BookingsInv(resources, Run(resources, bookings, ops))
    decreases ops
  {
    if ops != [] {
      match ops[0] {
        case Create(b) => CreateKeepsDisjoint(resources, bookings, b);
        case Update(u, id, status) =>
          if UpdateAnswer(bookings, u, id).Ok? { UpdateKeepsDisjointIff(resources, bookings, u, id, status); }
      }
      RunKeepsDisjoint(resources, After(resources, bookings, ops[0]), ops[1..]);
    }
  }

  // ----- listing and booking together -----

  /** All active bookings of the resource, whenever they are. */
  function OfResource(bookings: seq<Booking>, userId: nat, resourceId: nat): (r: seq<Booking>)
    ensures forall b :: b in r <==>
      b in bookings && b.userId == userId && b.resourceId == resourceId && Active(b.status)
  {
    if bookings == [] then []
    else
      var rest := OfResource(bookings[1..], userId, resourceId);
      if bookings[0].userId == userId && bookings[0].resourceId == resourceId && Active(bookings[0].status)
      then [bookings[0]] + rest else rest
  }

  /** A local date in a zone: the instants of its minutes, and the day range. */
  datatype Day = Day(clock: LocalClock, start: int, end: int)

  function DayOf(date: Date, zone: Zone): Day {
    Day(ClockOf(date, zone), DayStart(date, zone), DayEnd(date, zone))
  }

  /** The day range covers cell `k` of the grid, from its start to its end. */
  predicate CellWithin(d: Day, s: ScheduleWindow, k: nat) {
    d.start <= d.clock(GridMinute(s, k)) && d.clock(GridMinute(s, k + 1)) <= d.end
  }

  ghost predicate CellsWithin(d: Day, s: ScheduleWindow) {
    forall k: nat | k < GridSize(s) :: CellWithin(d, s, k)
  }

  /** The day range covers the grid, and the clock runs forward in it. */
  ghost predicate CoversGrid(d: Day, s: ScheduleWindow) { GridRises(d.clock, s) && CellsWithin(d, s) }

  lemma TakenIffConflict(bookings: seq<Booking>, userId: nat, resourceId: nat, slot: TimeSlot, lo: int, hi: int)
    requires lo <= slot.startsAt && slot.endsAt <= hi
    ensures Taken(slot, Fetch(bookings, userId, resourceId, lo, hi))
        <==> Conflicts(bookings, userId, resourceId, slot.startsAt, slot.endsAt)
    ensures Taken(slot, OfResource(bookings, userId, resourceId))
        <==> Conflicts(bookings, userId, resourceId, slot.startsAt, slot.endsAt)
  {
    var fetched, all := Fetch(bookings, userId, resourceId, lo, hi), OfResource(bookings, userId, resourceId);
    if Conflicts(bookings, userId, resourceId, slot.startsAt, slot.endsAt) {
      var b :| b in bookings && b.userId == userId && b.resourceId == resourceId && Active(b.status)
        && b.startsAt < slot.endsAt && b.endsAt > slot.startsAt;
      assert b in fetched && b in all;
    }
  }

  /** Fetched bookings decide a cell within the day as the conflict check does. */
  lemma CellTakenIff(d: Day, s: ScheduleWindow, bookings: seq<Booking>, userId: nat, resourceId: nat, k: nat)
    requires CellWithin(d, s, k)
    ensures
      var slot, fetched := GridSlot(d.clock, s, k), Fetch(bookings, userId, resourceId, d.start, d.end);
      && (Taken(slot, fetched) <==> Conflicts(bookings, userId, resourceId, slot.startsAt, slot.endsAt))
      && (Taken(slot, OfResource(bookings, userId, resourceId)) <==> Taken(slot, fetched))
  {
    NextLine(s, k);
    TakenIffConflict(bookings, userId, resourceId, GridSlot(d.clock, s, k), d.start, d.end);
  }

  /** Fetching only the bookings that touch the day offers the same slots as using all of them. */
  ghost predicate SameAsAll(
    date: Date, zone: Zone, s: ScheduleWindow, bookings: seq<Booking>, userId: nat, resourceId: nat)
  {
    var fetched := Fetch(bookings, userId, resourceId, DayStart(date, zone), DayEnd(date, zone));
    FreeSlots(ClockOf(date, zone), s, fetched)
      == FreeSlots(ClockOf(date, zone), s, OfResource(bookings, userId, resourceId))
  }

  lemma DayFetchIsEnough(
    date: Date, zone: Zone, s: ScheduleWindow, bookings: seq<Booking>, userId: nat, resourceId: nat)
    requires CellsWithin(DayOf(date, zone), s)
    ensures SameAsAll(date, zone, s, bookings, userId, resourceId)
  {
    var clock := ClockOf(date, zone);
    var fetched := Fetch(bookings, userId, resourceId, DayStart(date, zone), DayEnd(date, zone));
    var all := OfResource(bookings, userId, resourceId);
    forall k: nat | 0 <= k < GridSize(s)
      ensures Taken(GridSlot(clock, s, k), fetched) <==> Taken(GridSlot(clock, s, k), all)
    {
      assert CellWithin(DayOf(date, zone), s, k);
      CellTakenIff(DayOf(date, zone), s, bookings, userId, resourceId, k);
    }
    SameTakenSameGrid(clock, s, 0, fetched, all);
    FreeSlotsAreFreeGrid(clock, s, fetched);
    FreeSlotsAreFreeGrid(clock, s, all);
  }

  /** The schedule of the date, if it has one, has all its cells within the day range. */
  ghost predicate WithinListing(schedules: seq<ScheduleWindow>, date: Date, zone: Zone) {
    var schedule := PickSchedule(schedules, DayOfWeek(date, zone));
    schedule.Some? ==> CellsWithin(DayOf(date, zone), schedule.value)
  }

  /** It also has a grid that runs forward. */
  ghost predicate CoversListing(schedules: seq<ScheduleWindow>, date: Date, zone: Zone) {
    var schedule := PickSchedule(schedules, DayOfWeek(date, zone));
    schedule.Some? ==> CoversGrid(DayOf(date, zone), schedule.value)
  }

  /** A listed slot is a cell of the grid that passes the conflict check. */
  lemma ListedSlot(bookings: seq<Booking>, userId: nat, resourceId: nat, schedules: seq<ScheduleWindow>,
                   date: Date, zone: Zone, now: int, slot: TimeSlot) returns (k: nat)
    requires WithinListing(schedules, date, zone)
    requires slot in Listing(bookings, userId, resourceId, schedules, date, zone, now)
    ensures !Conflicts(bookings, userId, resourceId, slot.startsAt, slot.endsAt)
    ensures var schedule := PickSchedule(schedules, DayOfWeek(date, zone));
      schedule.Some? && k < GridSize(schedule.value) && slot == GridSlot(ClockOf(date, zone), schedule.value, k)
  {
    var s := PickSchedule(schedules, DayOfWeek(date, zone)).value;
    var clock := ClockOf(date, zone);
    var fetched := Fetch(bookings, userId, resourceId, DayStart(date, zone), DayEnd(date, zone));
    StartingAfterMembers(FreeSlots(clock, s, fetched), now, slot);
    OfferedIff(clock, s, fetched, slot);
    k :| k < GridSize(s) && slot == GridSlot(clock, s, k);
    assert CellWithin(DayOf(date, zone), s, k);
    CellTakenIff(DayOf(date, zone), s, bookings, userId, resourceId, k);
  }

  /** Every listed slot of an active resource can be booked. */
  lemma ListedSlotIsBookable(
    resources: Resources, bookings: seq<Booking>, b: Booking, date: Date, zone: Zone, now: int)
    requires Mine(resources, b.userId, b.resourceId) && resources[b.resourceId].isActive
    requires CoversListing(resources[b.resourceId].schedules, date, zone)
    requires TimeSlot(b.startsAt, b.endsAt)
      in Listing(bookings, b.userId, b.resourceId, resources[b.resourceId].schedules, date, zone, now)
    ensures CreateAnswer(resources, bookings, b) == Ok(|bookings|)
  {
    var schedules := resources[b.resourceId].schedules;
    var k := ListedSlot(bookings, b.userId, b.resourceId, schedules, date, zone, now, TimeSlot(b.startsAt, b.endsAt));
    GridApart(ClockOf(date, zone), PickSchedule(schedules, DayOfWeek(date, zone)).value, k, k);
  }

  /** Booking takes exactly its slot off the listing. */
  ghost predicate Removes(
    resources: Resources, bookings: seq<Booking>, b: Booking, date: Date, zone: Zone, now: int)
    requires b.resourceId in resources
  {
    var schedules := resources[b.resourceId].schedules;
    var before := Listing(bookings, b.userId, b.resourceId, schedules, date, zone, now);
    Listing(AfterCreate(resources, bookings, b), b.userId, b.resourceId, schedules, date, zone, now)
      == Without(before, TimeSlot(b.startsAt, b.endsAt))
  }

  lemma BookingRemovesItsSlot(
    resources: Resources, bookings: seq<Booking>, b: Booking, date: Date, zone: Zone, now: int)
    requires Mine(resources, b.userId, b.resourceId) && resources[b.resourceId].isActive && Active(b.status)
    requires CoversListing(resources[b.resourceId].schedules, date, zone)
    requires TimeSlot(b.startsAt, b.endsAt)
      in Listing(bookings, b.userId, b.resourceId, resources[b.resourceId].schedules, date, zone, now)
    ensures Removes(resources, bookings, b, date, zone, now)
  {
    var schedules := resources[b.resourceId].schedules;
    var slot := TimeSlot(b.startsAt, b.endsAt);
    var k := ListedSlot(bookings, b.userId, b.resourceId, schedules, date, zone, now, slot);
    ListedSlotIsBookable(resources, bookings, b, date, zone, now);
    var s := PickSchedule(schedules, DayOfWeek(date, zone)).value;
    BookedGrid(date, zone, s, bookings, b, k);
    var fetched := Fetch(bookings, b.userId, b.resourceId, DayStart(date, zone), DayEnd(date, zone));
    WithoutStartingAfter(FreeSlots(ClockOf(date, zone), s, fetched), slot, now);
  }

  lemma BookedGrid(date: Date, zone: Zone, s: ScheduleWindow, bookings: seq<Booking>, b: Booking, k: nat)
    requires CoversGrid(DayOf(date, zone), s) && k < GridSize(s) && Active(b.status)
    requires TimeSlot(b.startsAt, b.endsAt) == GridSlot(ClockOf(date, zone), s, k)
    ensures var clock := ClockOf(date, zone);
      var before := Fetch(bookings, b.userId, b.resourceId, DayStart(date, zone), DayEnd(date, zone));
      var after := Fetch(bookings + [b], b.userId, b.resourceId, DayStart(date, zone), DayEnd(date, zone));
      FreeSlots(clock, s, after) == Without(FreeSlots(clock, s, before), TimeSlot(b.startsAt, b.endsAt))
  {
    var clock := ClockOf(date, zone);
    var before := Fetch(bookings, b.userId, b.resourceId, DayStart(date, zone), DayEnd(date, zone));
    var after := Fetch(bookings + [b], b.userId, b.resourceId, DayStart(date, zone), DayEnd(date, zone));
    var slot := TimeSlot(b.startsAt, b.endsAt);
    forall j: nat | 0 <= j < GridSize(s)
      ensures Taken(GridSlot(clock, s, j), after)
        <==> Taken(GridSlot(clock, s, j), before) || GridSlot(clock, s, j) == slot
    {
      assert CellWithin(DayOf(date, zone), s, j);
      CellTakenIff(DayOf(date, zone), s, bookings, b.userId, b.resourceId, j);
      CellTakenIff(DayOf(date, zone), s, bookings + [b], b.userId, b.resourceId, j);
      GridApart(clock, s, if j < k then j else k, if j < k then k else j);
      GridApart(clock, s, k, k);
      OneMoreConflict(bookings, b, GridSlot(clock, s, j));
    }
    OneMoreTaken(clock, s, 0, before, after, slot);
    FreeSlotsAreFreeGrid(clock, s, before);
    FreeSlotsAreFreeGrid(clock, s, after);
  }

  lemma OneMoreConflict(bookings: seq<Booking>, b: Booking, slot: TimeSlot)
    requires Active(b.status)
    ensures Conflicts(bookings + [b], b.userId, b.resourceId, slot.startsAt, slot.endsAt)
        <==> Conflicts(bookings, b.userId, b.resourceId, slot.startsAt, slot.endsAt)
             || Overlap(slot.startsAt, slot.endsAt, b.startsAt, b.endsAt)
  {
    assert b in bookings + [b];
    assert forall x :: x in bookings + [b] <==> x in bookings || x == b;
  }

  /** Cancelling that booking puts the listing back as it was. */
  lemma CancellingRestoresListing(
    resources: Resources, bookings: seq<Booking>, b: Booking, date: Date, zone: Zone, now: int)
    requires CreateAnswer(resources, bookings, b).Ok?
    ensures var schedules := resources[b.resourceId].schedules;
      Listing(AfterUpdate(AfterCreate(resources, bookings, b), b.userId, |bookings|, Cancelled),
              b.userId, b.resourceId, schedules, date, zone, now)
        == Listing(bookings, b.userId, b.resourceId, schedules, date, zone, now)
  {
    var cancelled := b.(status := Cancelled);
    assert AfterUpdate(bookings + [b], b.userId, |bookings|, Cancelled) == bookings + [cancelled];
    FetchIgnores(bookings, cancelled, b.userId, b.resourceId, DayStart(date, zone), DayEnd(date, zone));
  }

  lemma {:induction false} FetchIgnores(
    bookings: seq<Booking>, b: Booking, userId: nat, resourceId: nat, lo: int, hi: int)
    requires !Active(b.status)
    ensures Fetch(bookings + [b], userId, resourceId, lo, hi) == Fetch(bookings, userId, resourceId, lo, hi)
  {
    if bookings == [] {
      assert (bookings + [b])[1..] == [];
    } else {
      assert (bookings + [b])[1..] == bookings[1..] + [b];
      FetchIgnores(bookings[1..], b, userId, resourceId, lo, hi);
    }
  }
}
