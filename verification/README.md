# Verified model of the commerce core

A Dafny 4.11 model of the parts of the server where state is shared and order matters: catalog orders and stock,
bookings and local time, billing, the message inbox, the rate limiter, and the code that exports and sums up.
`dafny verify dfyconfig.toml` checks everything.

Tables are sequences: the row with autoincrement id `i` is element `i`. Where the server updates rows, maps or running
totals, a class or a method with loops does the same steps and is proved to compute a function of the old state; what the
system promises is then proved of that function, for every input, every run or every interleaving. Clocks, foreign
answers and delivery failures are parameters. Money is in whole paise (orders) or rupees (billing).

| files | subject |
|---|---|
| `catalog_orders`, `catalog_service` | order life cycle, stock, the order service over mutable tables |
| `catalog_answers` | when each order call succeeds, prices and income, read off the columns |
| `catalog_transactions` | `confirm` and `reject` as concurrent transactions, one SQL statement at a time |
| `catalog_race` | confirmations racing for the same stock |
| `calendar`, `correction_loop`, `timezone` | dates, the conversion loop of local time, the calendar it uses |
| `slots`, `availability` | slot grid, bookings, conflict check, listing |
| `guarantees` | what a listing promises, and exactly when it keeps it |
| `billing_access`, `lifecycle`, `notice_dates` | what a billing record allows at an instant, the daily notices and their dates |
| `billing`, `billing_service`, `billing_effects` | manual payments, expiry, Razorpay events, ledger, and what each gives its user |
| `inbox`, `inbox_delivery` | storing inbound messages, webhook calls as concurrent processes |
| `rate_limit` | the fixed-window limiter |
| `csv` | both CSV printers and a reader |
| `sales_keys`, `tallies`, `sales_analytics` | string keys of maps, grouping and ranking, the sales report |
| `text`, `wrappers` | string helpers, `Option` and `Result` |

## Concurrency

`CatalogTransactions` takes PostgreSQL at Read Committed: a statement sees committed rows and its own writes, a
conditional update locks the row it changes until commit or abort, waits for a row another transaction holds and checks
its condition again after the wait. A crash can end a transaction between any two statements. The other service calls
take effect in one step and wait for locked rows.

`InboxDelivery` takes each lookup, each insert, the storing transaction and each queue call as one step of a webhook
call. Unique indexes are on (owner, message id), (owner, sender) and contact.

## Where the code falls short of its comments or of what one would expect

Each point has a lemma with the exact condition or a concrete run.

- The rate limiter is announced as a sliding window; it is a fixed window opened by a first request, and lets through up
  to `2 * limit - 1` calls in one window length (`BoundIsTight`). The announcement holds only for a limit of one call or a
  window of one millisecond (`SlidingWindowIff`).
- `zonedLocalDateTimeToUtc` compares days of the month. A probe that reads in another month sends it to that month for
  good (`ConvertExactIff`, `FixedConvertIs`, `KolkataMonthEnd`). West of Greenwich the day range is wrong on the first and
  last day of every month (`DayRangeExactIff`). From half a day off UTC on, a date at a month's edge can take the schedule
  of another weekday (`DayOfWeekIsIff`).
- So the slot listing fails on the last day of a month: west of Greenwich the day range ends before it starts and booked
  slots are offered again (`WestMonthEndOffersAgain`); east of it an evening slot can last two months and be offered over
  any booking in between (`KolkataOffersTwoMonths`). `FixedGuaranteesIff` says on exactly which dates and schedules every
  listed slot is free, can be booked, and goes when booked.
- On a day when clocks go forward, slots around the gap can repeat or end before they start
  (`SpringForwardRepeatsASlot`); such a slot is listed, refused as an invalid range when booked, and stays listed
  (`SpringForwardRefusesASlot`, `BrokenCellFails`). `GuaranteesIff`, for every zone, and `ChangeGuaranteesIff` say exactly
  when a listing keeps its promises there; `EdgeGuaranteesIff` covers the first and last days of months, whose early or
  late times can convert into another month (`FallBackOnTheFirst`).
- `updateBookingStatus` does not look for conflicts (`UpdateKeepsDisjointIff`, `RevivalDoubleBooks`), and the conflict
  check of `createBooking` is a separate statement from its insert (`CheckedTogetherDisjointIff`).
- `attachScreenshot`, `setShippingAddress`, `shipOne` and `markDelivered` read and then write by id alone. Exactly when a
  late write is harmless: `LateWriteIsSafeOnlyWhilePending`, `LateAddressIsSafeIff`, `LateShipmentIsSafeIff`,
  `LateDeliveryIsSafeIff`. A late screenshot undoes a confirmation (`LateScreenshotSellsTwice`), a late address a shipment
  (`LateAddressShipsTwice`).
- `shipOne` accepts a confirmed order, which its error text denies; no reachable confirmed order has the address it also
  demands (`ShipsOnlyFromReady`).
- Submitting a payment closes the platform while it is under review, even during the trial (`SubmissionGives`), and a
  rejected or expired payment also ends a paid period that was still open (`RejectionLeaves`, `ExpiryLeaves`).
- Orders keep the price of the day they were made, so income is price times units only while no ordered product is
  repriced (`AmountStays`, `AfterKeepsPricesIff`).
- A webhook call that stops between storing and queueing loses the message for processing (`LostStaysLost`), two first
  messages of a new sender can lose one (`FirstMessagesRace`), and messages without an id are not deduplicated
  (`RetryIsSilentIff`).
- An export whose last row is one blank cell, or with a row of no cells, does not read back (`ExportReadsBackIff`).

## Model

| member | source | states |
|---|---|---|
| `CatalogTransactions.Refines` | src/modules/catalog/catalog-orders.service.ts:584-699 | Every interleaving of any number of `confirm` and `reject` transactions with the other calls, statement by statement with row locks, rollback and crashes, leaves the tables the calls that took effect leave one after the other, and each gets the answer it would get alone at its place; aborted ones leave no trace |
| `CatalogTransactions.Linearizable` | src/modules/catalog/catalog-orders.service.ts:584-699 | Every finished transaction behaved as if it ran alone at one instant after its first statement began and no later than its answer: an order it answered is what the atomic call gives and does at that instant, which is a statement of its own; an exception other than a crash is of the kind the atomic call throws at that instant |
| `CatalogTransactions.DecidedOnce` | src/modules/catalog/catalog-orders.service.ts:608-626 | Over a concurrent run each order is confirmed or rejected at most once |
| `CatalogTransactions.StockConserved` | src/modules/catalog/catalog-orders.service.ts:608-650 | In every reachable state, the writes of transactions about to commit included, stock plus units taken by orders is the first stock plus the owner's adjustments, and no stock is negative |
| `CatalogTransactions.LastUnitSoldOnce` | src/modules/catalog/catalog-orders.service.ts:580-584 | Two orders waiting for one last unit are never both paid for, however their transactions interleave, unless the owner adds stock |
| `CatalogRace.EveryUnitIsSold` | src/modules/catalog/catalog-orders.service.ts:580-661 | Any number of confirmations of waiting orders of any products, in any interleaving with each other and with the calls that neither decide nor restock, without crashes: when all have ended, of those for a product exactly the smaller of their number and its stock succeeded, an order is paid for exactly when its confirmation succeeded, and the others got a stock error and still wait |
| `CatalogRace.NextKeepsRace` | src/modules/catalog/catalog-orders.service.ts:584-661 | At every event of such a race stock left plus confirmations won is the first stock, and a confirmation has failed only where its product is sold out |
| `CatalogTransactions.SomeoneMoves` | src/modules/catalog/catalog-orders.service.ts:609-650 | No deadlock: while a transaction is unfinished, some transaction can run its next statement |
| `CatalogTransactions.StepsAreBounded` | src/modules/catalog/catalog-orders.service.ts:584-699 | Whatever the scheduler and the other calls do, n transactions take at most 5 n steps |
| `CatalogTransactions.ReadyTogether` | src/modules/catalog/catalog-orders.service.ts:609-655 | All transactions past their last conditional statement can commit one after the other, each with the atomic answer |
| `CatalogTransactions.ExecKeepsInv` | src/modules/catalog/catalog-orders.service.ts:584-699 | The locks are exclusive and each transaction's stale first read still describes its row, in every reachable state |
| `CatalogTransactions.ReadyCommits` | src/modules/catalog/catalog-orders.service.ts:609-655 | Publishing the private writes of a transaction past its last condition is the atomic call |
| `CatalogTransactions.VerdictIsAtomic` | src/modules/catalog/catalog-orders.service.ts:594-602 | A failing statement settles on an exception only where the atomic call would throw one of that kind |
| `CatalogTransactions.RowHolderMoves` | src/modules/catalog/catalog-orders.service.ts:609-635 | A transaction that holds an order row waits at most for a product row |
| `CatalogTransactions.LateWriteIsSafeOnlyWhilePending` | src/modules/catalog/catalog-orders.service.ts:552-573 | A screenshot write that arrives late leaves the order consistent and only moved forward if and only if the order still waits for payment or verification |
| `CatalogTransactions.LateAddressIsSafeIff` | src/modules/catalog/catalog-orders.service.ts:274-299 | The same for a late address: if and only if the order is confirmed or ready to ship |
| `CatalogTransactions.LateShipmentIsSafeIff` | src/modules/catalog/catalog-orders.service.ts:388-417 | The same for a late shipment: if and only if the order is ready to ship with an address line, or is shipped with that very shipment |
| `CatalogTransactions.LateDeliveryIsSafeIff` | src/modules/catalog/catalog-orders.service.ts:421-435 | The same for a late delivery: if and only if the order is shipped, or delivered at that very instant |
| `CatalogTransactions.LateAddressShipsTwice` | src/modules/catalog/catalog-orders.service.ts:274-299 | An address read before and written after a shipment puts the order back to ready to ship, and it can be shipped again |
| `CatalogTransactions.LateScreenshotSellsTwice` | src/modules/catalog/catalog-orders.service.ts:552-573 | A screenshot read before and written after a confirmation lets the order be confirmed again and takes its quantity from stock twice |
| `CatalogOrders.RunKeepsInv` | src/modules/catalog/catalog-orders.service.ts:490-699 | In every state any run of calls reaches: payment is verified exactly for the paid statuses, a confirmed order has no address, shipped and delivered orders have a non-empty address, a pincode of 6 to 12 digits and a tracking number, and no stock is negative |
| `CatalogAnswers.ConfirmOkIff` | src/modules/catalog/catalog-orders.service.ts:584-650 | In a reachable shop a confirm succeeds if and only if the order is the caller's, waits for verification, and a product row of the same site has a unit in stock, switched off or not; and which error comes otherwise |
| `CatalogAnswers.ConfirmTakesOne` | src/modules/catalog/catalog-orders.service.ts:608-650 | A successful confirm marks the payment verified with instant and owner, takes one unit of that product, and changes no other order, product or column of the sale |
| `CatalogAnswers.DecisionsOpen` | src/modules/catalog/catalog-orders.service.ts:584-699 | An order that can be rejected can be confirmed exactly when its product has a unit |
| `CatalogAnswers.RejectOkIff` | src/modules/catalog/catalog-orders.service.ts:664-699 | A reject succeeds if and only if the caller's order waits for verification, and leaves stock alone |
| `CatalogAnswers.CreateOkIff` | src/modules/catalog/catalog-orders.service.ts:490-531 | A create succeeds if and only if the caller has a site with payments on and a QR code, the product is an active one of that site with stock, and the contact is absent or the caller's own |
| `CatalogAnswers.CreateAdds` | src/modules/catalog/catalog-orders.service.ts:515-544 | The new order asks for the price of one unit, waits for payment, and nothing else changes |
| `CatalogAnswers.AmountStays` | src/modules/catalog/catalog-orders.service.ts:515-533 | Whatever happens later, an order asks for the price its product had when the order was made |
| `CatalogAnswers.RunKeepsPrices` | src/modules/catalog/catalog-orders.service.ts:515-533 | As long as no ordered product is repriced, every order asks for its quantity times the price of its product |
| `CatalogAnswers.AfterKeepsPricesIff` | src/modules/catalog/catalog.service.ts:430-474 | A call keeps that law if and only if it does not give another price to a product that has been ordered |
| `CatalogAnswers.RunIncome` | src/modules/catalog/catalog-orders.service.ts:515-650 | Then the verified income of a shop that began without orders is, over all products, price times units taken from stock |
| `CatalogAnswers.EditOkIff` | src/modules/catalog/catalog.service.ts:430-474 | A product update succeeds if and only if the product is of the caller's site, and changes the columns it was given and no others |
| `CatalogAnswers.OffSaleStillConfirms` | src/modules/catalog/catalog-orders.service.ts:584-650 | A product taken off sale gets no new orders, and its waiting orders are confirmed as before |
| `CatalogAnswers.AttachOkIff` | src/modules/catalog/catalog-orders.service.ts:547-573 | When a screenshot is accepted, on the columns, and what it changes |
| `CatalogAnswers.SetAddressOkIff` | src/modules/catalog/catalog-orders.service.ts:268-299 | When an address is accepted, on the columns, and the address stored: trimmed, with the customer's name and phone as fallback and at most twelve digits of pincode |
| `CatalogAnswers.ShipOkIff` | src/modules/catalog/catalog-orders.service.ts:387-417 | In a reachable shop a shipment is accepted if and only if the order is ready to ship, its address has a line and the tracking number three characters; and what it changes |
| `CatalogAnswers.DeliverOkIff` | src/modules/catalog/catalog-orders.service.ts:420-435 | A delivery is accepted if and only if the caller's order is shipped |
| `CatalogAnswers.OrderGetsPaid` | src/modules/catalog/catalog-orders.service.ts:490-650 | From any creatable order with a screenshot of its site, creation, screenshot and confirmation all succeed and end with one paid order at the product's price and one unit less |
| `CatalogAnswers.OrderGetsDelivered` | src/modules/catalog/catalog-orders.service.ts:268-435 | From there address, shipment and delivery all succeed and end with the order delivered |
| `CatalogOrders.RunOnlyMovesForward` | src/modules/catalog/catalog-orders.service.ts:268-699 | Orders only move forward, keep product, quantity and amount, keep their verification once paid, and never change once delivered or rejected |
| `CatalogOrders.ShipsOnlyFromReady` | src/modules/catalog/catalog-orders.service.ts:387-396 | `shipOne` accepts a confirmed order, but in a reachable shop every shipment leaves from `ready_to_ship` |
| `CatalogOrders.AtMostOneDecision` | src/modules/catalog/catalog-orders.service.ts:584-699 | A sequence of calls that each got their atomic answer decides an order at most once |
| `CatalogOrders.RunConserves` | src/modules/catalog/catalog-orders.service.ts:608-650 | What is left of a product plus what orders took is what was there plus the owner's adjustments |
| `CatalogOrders.RunNeverOversells` | src/modules/catalog/catalog-orders.service.ts:628-650 | Orders never take more units than there ever were, and stock never goes negative |
| `CatalogService.CatalogOrdersService.Confirm` | src/modules/catalog/catalog-orders.service.ts:584-661 | Read, claim, decrement and undo together do what the atomic `confirm` does, error answers included |
| `CatalogService.CatalogOrdersService.BulkMarkShipped` | src/modules/catalog/catalog-orders.service.ts:315-343 | A batch equals its single ships in order, item for item with their answers, a failing item stops nothing, and shipped + failed is the number of items |
| `CatalogService.BatchShipsEachOrderOnce` | src/modules/catalog/catalog-orders.service.ts:319-339 | An order listed twice in one batch is shipped once; its later items fail |
| `Timezone.ConvertExactIff` | src/modules/availability/timezone.util.ts:33-59 | In a zone with at most one offset change within a day of the target, and offsets less than a day apart, the conversion reads back as the target if and only if the zone shows that time and both probes read in its month, and then the third pass has it |
| `Timezone.FixedConvertIs` | src/modules/availability/timezone.util.ts:33-59 | What the conversion returns at a constant offset for every date and time: right, or off by the length of one month or two |
| `Timezone.FixedConvertIsCivil` | src/modules/availability/timezone.util.ts:33-59 | The same with the day number of the Gregorian calendar written out by division |
| `Timezone.KeptConvertIs` | src/modules/availability/timezone.util.ts:33-59 | The same in any zone that has one offset at the at most three instants the loop reads |
| `Timezone.ChangeConvertIs` | src/modules/availability/timezone.util.ts:33-59 | What it returns near a change of offset when all its probes stay in the month of the target, times never shown and times shown twice included |
| `Timezone.DayRangeExactIff` | src/modules/availability/timezone.util.ts:80-88 | At a constant offset the UTC day range is the local day if and only if the offset is not negative or the day is neither the first nor the last of its month |
| `Timezone.DayRangeShowsIff` | src/modules/availability/timezone.util.ts:80-88 | Where both midnights have at most one change of offset within a day of them, the day range shows them if and only if the zone has both and the probes for each stay in its month |
| `Timezone.MidnightExactIff` | src/modules/availability/timezone.util.ts:80-88 | At a constant offset a local midnight converts exactly if and only if the offset is not negative or it is not the first of a month |
| `Timezone.KolkataMonthEnd` | src/modules/availability/timezone.util.ts:42-56 | 18:30 on 31 January 1970 in Asia/Kolkata converts to 18:30 on 31 March |
| `Timezone.ZonedLocalDateTimeToUtc` | src/modules/availability/timezone.util.ts:33-59 | The loop with its early return computes the conversion |
| `Timezone.CorrectFrom` | src/modules/availability/timezone.util.ts:42-58 | The loop itself, over any clock and number of attempts |
| `Timezone.SettleIsLoop` | src/modules/availability/timezone.util.ts:42-56 | The early return changes no result: further corrections would be zero |
| `CorrectionLoop.ExactIff` | src/modules/availability/timezone.util.ts:42-56 | The loop over an abstract calendar and a zone with one change nearby is exact if and only if the time is shown and both probes stay in the month |
| `CorrectionLoop.NeverComesBack` | src/modules/availability/timezone.util.ts:42-56 | A loop that has left the month never reads the target again |
| `CorrectionLoop.GapResult` | src/modules/availability/timezone.util.ts:42-58 | What a gap time converts to after any number of passes |
| `Calendar.DateRoundTrip` | src/modules/availability/timezone.util.ts:90-97 | Every valid date is recovered from its day number |
| `Calendar.DayRoundTrip` | src/modules/availability/timezone.util.ts:90-97 | Every day number is recovered from its date, which is valid |
| `Calendar.DayNumberIsCivil` | src/modules/availability/timezone.util.ts:62-97 | The day number of every date is the closed Gregorian formula in year, month and day, anchored at 1970-01-01, and a date is valid exactly when it lies before the first of the next month by that formula |
| `Calendar.CalendarRepeats` | src/modules/availability/timezone.util.ts:62-97 | Four hundred years later the same dates are valid, 146097 days on, and fall on the same weekdays |
| `Calendar.CenturyLeapDays` | src/modules/availability/timezone.util.ts:62-97 | 29 February of a century year exists exactly when 400 divides the year |
| `Calendar.KnownMonday` | src/modules/availability/timezone.util.ts:62-78 | 15 June 2026 is day 20619, a Monday |
| `Slots.OfferedIff` | src/modules/availability/slot-engine.ts:44-74 | A slot is offered if and only if it is a grid cell inside the schedule and no active booking overlaps it |
| `Slots.OfferedInOrderIff` | src/modules/availability/slot-engine.ts:58-73 | For all bookings the offered slots come in increasing order, have positive length and never overlap, if and only if later lines of the grid convert to later instants |
| `Slots.ChangeRisesIff` | src/modules/availability/slot-engine.ts:58-73 | Near a change of offset, on a day whose probes for every minute of the schedule stay in the month, later minutes are later instants if and only if the schedule spans neither the step into a gap (zone behind UTC before it) nor the step out of one (zone ahead of UTC after it) |
| `Slots.EdgeRisesIff` | src/modules/availability/slot-engine.ts:58-73 | Near a change of offset on any day of a month, with probes that stay in the month or find the same offset outside it, later minutes are later instants if and only if no two minutes of the schedule are out of order by the stated arithmetic |
| `Slots.FallBackOnTheFirst` | src/modules/availability/slot-engine.ts:58-62 | When clocks go back at 02:00 from -04:00 to -05:00 on the first of a month, its times before 04:00 convert into the month before and the later ones are right |
| `Slots.ChangeGridRisesIff` | src/modules/availability/slot-engine.ts:58-73 | On such a day whose probes stay in the month the grid lines rise if and only if no cell lies across such a step |
| `Slots.SpringForwardRepeatsASlot` | src/modules/availability/slot-engine.ts:58-73 | On a day inside a month when clocks go forward at 02:00 from -05:00 to -04:00 the slot at 01:30 ends before it starts and the slot at 02:00 is the one at 01:00 |
| `Slots.EmptyDayCount` | src/modules/availability/slot-engine.ts:58-73 | Without bookings floor((end - start) / slotMinutes) slots are offered |
| `Slots.GenerateAvailableSlots` | src/modules/availability/slot-engine.ts:44-74 | The loop that advances the cursor computes the free slots of the schedule |
| `Slots.PickSchedule` | src/modules/availability/slot-engine.ts:89-95 | The first active schedule of the weekday is chosen, and none only if there is none |
| `Slots.DayOfWeekIsIff` | src/modules/availability/timezone.util.ts:62-78 | At a constant offset the weekday is the calendar one if and only if noon does not probe into the next month (last day, +12:00 and beyond) or the month before (first day, beyond -12:00), or the month so crossed has 28 days |
| `Slots.DayOfWeekNearIff` | src/modules/availability/timezone.util.ts:62-78 | Near a change of offset, with the probes for noon in the month, the weekday is the calendar one unless noon is never shown and the gap is half a day or longer |
| `Slots.JanuaryEndMisread` | src/modules/availability/timezone.util.ts:62-78 | At a constant offset of +12:00 and beyond 31 January of a common year counts as the weekday three days on |
| `Slots.FutureSlotsAre` | src/modules/availability/slot-engine.ts:77-87 | On the current day of the zone exactly the slots that start after now stay, on others all, in order |
| `Availability.RunKeepsDisjoint` | src/modules/availability/availability.service.ts:233-322 | Active bookings of a resource stay pairwise disjoint over every run that revives no booking over another |
| `Availability.UpdateKeepsDisjointIff` | src/modules/availability/availability.service.ts:294-322 | A status change keeps them disjoint if and only if it does not revive an inactive booking over an active one |
| `Availability.BookableIff` | src/modules/availability/availability.service.ts:233-254 | A booking is accepted if and only if it is of the caller's own active resource, ends after it starts, and every active booking of the resource ends before it or starts after it |
| `Availability.RevivalDoubleBooks` | src/modules/availability/availability.service.ts:294-322 | Book, cancel, book again and revive: two bookings of one hour |
| `Availability.CheckedTogetherDisjointIff` | src/modules/availability/availability.service.ts:245-268 | Any number of requests that all checked before any of them inserted leave bookings disjoint if and only if no two of them clash |
| `Guarantees.FixedGuaranteesIff` | src/modules/availability/availability.service.ts:233-404 | At a constant offset, for all bookings and at all times, every listed slot passes the conflict check, can be booked, and is the one slot to go when booked, each if and only if the date is not the last of its month or the zone is not west of Greenwich and the first probe for the end of the last grid cell still reads in the month |
| `Guarantees.ListsOnlyFreeIff` | src/modules/availability/availability.service.ts:328-404 | In every zone, every listed slot passes the conflict check, whatever is booked, if and only if the day range covers each grid cell from its start to its end |
| `Guarantees.GuaranteesIff` | src/modules/availability/availability.service.ts:233-404 | In every zone, every listed slot can be booked, whatever else is booked, if and only if the day range covers each grid cell and later grid lines are later instants; and booking takes exactly its slot off the listing under the same condition |
| `Guarantees.ChangeGuaranteesIff` | src/modules/availability/availability.service.ts:233-404 | Near a change of offset, on a day whose probes for the schedule and both midnights stay in the month: bookable and removed if and only if no cell lies across a stumble of the conversion and it falls back neither from midnight to the grid nor from the grid to midnight; only free slots if and only if no cell falls out of the day so |
| `Guarantees.EdgeGuaranteesIff` | src/modules/availability/availability.service.ts:233-404 | On any day of a month near a change of offset, with probes that stay in the month or find the same offset outside it, the same is decided by the computed instants of grid lines and midnights |
| `Guarantees.BrokenCellFails` | src/modules/availability/availability.service.ts:241-243 | A cell that does not end after it starts is listed without any booking, refused as an invalid range, and stays listed |
| `Guarantees.MissedCellFails` | src/modules/availability/availability.service.ts:352-404 | A cell that the day range does not cover is, after one suitable booking, listed though it clashes with it, refused, and stays listed |
| `Guarantees.SpringForwardRefusesASlot` | src/modules/availability/availability.service.ts:233-243 | On a day inside a month when clocks go forward at 02:00 from -05:00 to -04:00 the slot at 01:30 is listed, refused, and stays listed |
| `Guarantees.UncoveredFails` | src/modules/availability/availability.service.ts:233-404 | In every zone, where the day range does not cover a grid that runs forward, with one booking or none a listed slot is refused and stays listed |
| `Guarantees.CoversWindowIff` | src/modules/availability/availability.service.ts:352-361 | At a constant offset the day range covers a usable schedule if and only if the date is not the last of its month or the offset is not negative and the end of the schedule plus the offset stays below a day |
| `Guarantees.WindowGuarantees` | src/modules/availability/availability.service.ts:233-404 | In every zone, a day range that covers the whole schedule, with later minutes later instants, is enough for all three promises |
| `Guarantees.KolkataOffersTwoMonths` | src/modules/availability/availability.service.ts:352-377 | At +05:30 on 31 January of a common year the slot at 18:00 ends 59 days late and is offered over any booking in February |
| `Guarantees.WestMonthEndOffersAgain` | src/modules/availability/availability.service.ts:352-377 | At every negative constant offset, a booked slot of the last day of a month is offered again |
| `Guarantees.DayFetchIsEnoughIff` | src/modules/availability/availability.service.ts:352-377 | In every zone, fetching only the bookings that touch the local day offers the same slots as all bookings of the resource, for all bookings, if and only if the day range covers each grid cell |
| `Availability.ListedSlotIsBookable` | src/modules/availability/availability.service.ts:328-404 | Where the day range covers a grid that runs forward, every listed slot of an active resource can be booked |
| `Availability.ListedSlot` | src/modules/availability/availability.service.ts:328-404 | Where the day range covers each cell, a listed slot is a grid cell no active booking conflicts with |
| `Availability.BookingRemovesItsSlot` | src/modules/availability/availability.service.ts:233-404 | There too, booking a listed slot takes exactly that slot off the listing |
| `Availability.CancellingRestoresListing` | src/modules/availability/availability.service.ts:294-404 | Cancelling a new booking restores the earlier listing |
| `BillingAccess.AccessNeverReturns` | src/modules/billing/billing.service.ts:204-487 | While the user record is unchanged, platform and website access that is gone does not come back |
| `BillingAccess.PlatformAccessIff` | src/modules/billing/billing.service.ts:328-487 | Platform access, as a condition on status, period end and trial |
| `BillingAccess.WebsiteAccessIff` | src/modules/billing/billing.service.ts:204-326 | Website access, as a condition on status, period end and trial |
| `BillingAccess.StatusShown` | src/modules/billing/billing.service.ts:204-487 | Which status is shown for which record |
| `BillingAccess.DaysLeftIffAccess` | src/modules/billing/billing.service.ts:204-487 | Where billing applies, at least one day is left exactly while there is access; otherwise the count is absent |
| `BillingAccess.DaysLeftCountsToTheEnd` | src/modules/billing/billing.service.ts:328-487 | After the days shown the end counted down to has passed, and one day earlier it has not |
| `Lifecycle.AccessVersusWindow` | src/modules/billing/subscription-lifecycle.service.ts:58-80 | Platform access implies an access window; the converse fails exactly for past-due and cancelled users whose paid period is over while the trial runs |
| `Lifecycle.EachNoticeAtMostOnce` | src/modules/billing/subscription-lifecycle.service.ts:96-196 | Over any run of jobs with a clock that never goes back a user gets at most one reminder and one expiry notice per end instant, and at most two of each in all |
| `NoticeDates.ReminderDueIff` | src/modules/billing/subscription-lifecycle.service.ts:124-153 | A reminder of an end is due if and only if the user is looked at, that is the end of the open paid period or, with none open, of the trial, it lies at most the window ahead, and it was not yet reminded of; the notice names the right kind of access and the days left, rounded up |
| `NoticeDates.ExpiryDueIff` | src/modules/billing/subscription-lifecycle.service.ts:159-175 | A notice of expiry is due if and only if no period is open, the trial is over, the end is that of the lapsed period or else of the trial, and no notice of it was sent |
| `NoticeDates.TurnWrites` | src/modules/billing/subscription-lifecycle.service.ts:144-188 | A turn records the end that was told and, at expiry, the status `expired` unless the subscription was cancelled; without a delivered notice it writes nothing |
| `NoticeDates.JobReminds` | src/modules/billing/subscription-lifecycle.service.ts:96-196 | One run of the job writes to exactly the users for whom a notice is due by these dates |
| `NoticeDates.OneReminder` | src/modules/billing/subscription-lifecycle.service.ts:96-196 | Over any run of jobs, one of them delivered while the end is within its window, exactly one reminder of that end goes out |
| `NoticeDates.OneExpiry` | src/modules/billing/subscription-lifecycle.service.ts:96-196 | Over any run of jobs, one of them delivered after access has ended, exactly one notice of that end goes out |
| `Lifecycle.SecondRunIsSilent` | src/modules/billing/subscription-lifecycle.service.ts:96-196 | A second run at the same instant sends nothing |
| `Lifecycle.SubscriptionLifecycle.ProcessLifecycleReminders` | src/modules/billing/subscription-lifecycle.service.ts:96-196 | The loop gives every user the turn due, sends those notices in order and counts them; a failed delivery records nothing |
| `Billing.RunKeeps` | src/modules/billing/manual-payment.service.ts:114-462 | In every run of submissions, reviews, expiries, Razorpay events and daily jobs: no product has two live submissions with one UTR, a user under review has a pending submission, approved submissions and `manual.approved` rows point at each other one to one, and no payment id occurs twice |
| `BillingEffects.ApprovalGives` | src/modules/billing/manual-payment.service.ts:331-373 | After an approval the status endpoint shows the user active on the plan that was paid for, with access, at every instant before the end set, and afterwards only the trial; the other product, other users and other submissions are as before |
| `BillingEffects.ApprovedAccessLasts` | src/modules/billing/manual-payment.service.ts:331-373 | That stays so through any run of calls for other users and daily jobs before the end |
| `BillingEffects.RejectionLeaves` | src/modules/billing/manual-payment.service.ts:420-451 | After a rejection the user has the trial alone, even where a paid period was open; the other product is as before |
| `BillingEffects.ExpiryLeaves` | src/modules/billing/manual-payment-expiry.service.ts:102-226 | An expiry does the same to a user under review with nothing else pending, and nothing to any other |
| `BillingEffects.SubmitOkIff` | src/modules/billing/manual-payment.service.ts:76-168 | When a payment can be submitted, on status, period, proof and UTR |
| `BillingEffects.UtrIgnoresBlanks` | src/modules/billing/manual-payment.service.ts:95-101 | White space in a UTR does not matter and nothing else in it is changed |
| `BillingEffects.SubmissionGives` | src/modules/billing/manual-payment.service.ts:170-212 | While a payment is under review the platform is closed, trial or not, and the website is open for the trial and any period paid before |
| `BillingEffects.EventGives` | src/modules/billing/billing.service.ts:1036-1102 | After a renewal event the platform is paid until the new end; after a failed payment or a cancellation it is open until the paid period ends, trial or not; the website is as before |
| `BillingEffects.CheckoutGives` | src/modules/billing/billing.service.ts:762-813 | When a checkout is accepted, and that the platform is then paid until the new end and the payment on record |
| `BillingEffects.LedgerGains` | src/modules/billing/billing.service.ts:951-1034 | The ledger only grows, by at most one row a call: the review of a waiting submission at its price, or a payment of a known user that is not yet on record, with its amount and status |
| `BillingEffects.RunKeepsAsked` | src/modules/billing/manual-payment.service.ts:76-462 | In every run each submission asks for the configured price of its product and plan under a well-formed UTR, and exactly the refused ones give a reason, of at most 500 characters |
| `Billing.ApproveNeverConflicts` | src/modules/billing/manual-payment.service.ts:303-326 | The conflict branch of approval is unreachable |
| `Billing.DecisionsAreFinal` | src/modules/billing/manual-payment.service.ts:292-462 | Approved, rejected and expired submissions never change again |
| `Billing.ManualRunKeepsExact` | src/modules/billing/manual-payment.service.ts:114-462 | Without Razorpay a user is under review exactly while exactly one submission of the product is pending |
| `Billing.RunKeepsAmounts` | src/modules/billing/manual-payment.service.ts:352-373 | Per user and product, the amounts captured by hand are the amounts approved |
| `Billing.PaymentRecordedOnce` | src/modules/billing/billing.service.ts:951-1034 | Any number of accepted checkouts and charge events of one payment, in any order, leave exactly one ledger row |
| `BillingServices.SweepExpiresExactlyTheStale` | src/modules/billing/manual-payment-expiry.service.ts:34-100 | A sweep expires exactly the stale pending submissions and leaves none stale |
| `BillingServices.SweepEndsStaleReviews` | src/modules/billing/manual-payment-expiry.service.ts:74-226 | Without Razorpay, after a sweep of all submissions a user is under review if and only if one of theirs for the product waits since the cutoff or later |
| `BillingServices.BillingService.ExpireStale` | src/modules/billing/manual-payment-expiry.service.ts:34-100 | Expires all stale submissions of one user or of all, and counts every one |
| `RateLimit.AtMostTwoBuckets` | src/common/rate-limit/rate-limit.service.ts:26-42 | No half-open interval of one window length sees more than 2 limit - 1 allowed calls of a key |
| `RateLimit.BoundIsTight` | src/common/rate-limit/rate-limit.service.ts:26-42 | That many are reached |
| `RateLimit.SlidingWindowIff` | src/common/rate-limit/rate-limit.service.ts:16-42 | No interval of one window length ever sees more than limit allowed calls, as the comment says, if and only if the limit is one call or the window one millisecond |
| `RateLimit.RetryAfterIsEnough` | src/common/rate-limit/rate-limit.service.ts:35-38 | After a denial a call `retryAfterSec` or more later is allowed, and the wait is less than a second too long |
| `RateLimit.RemainingIsExact` | src/common/rate-limit/rate-limit.service.ts:40-41 | `remaining` is how many further calls the bucket allows, and the next one is refused |
| `RateLimit.RateLimiter.Check` | src/common/rate-limit/rate-limit.service.ts:26-42 | Answers and updates the key's bucket, and no other key's |
| `Csv.ExportReadsBackIff` | src/modules/catalog/catalog-orders.service.ts:164-220 | The quote-when-needed export is recovered by an RFC 4180 section 2 reader, whatever the cells contain, if and only if no row is empty and the last is not one blank cell |
| `Csv.BuildReadsBackIff` | src/common/export/csv.util.ts:7-11 | The always-quoting export with plain header names is recovered if and only if no row is empty |
| `Csv.EncodingsAgree` | src/common/export/csv.util.ts:2-11 | Both encodings of one table with at least two columns read back as the same table |
| `Csv.CellReadsBack` | src/modules/catalog/catalog-orders.service.ts:746-752 | A printed cell, quotes, commas and line breaks included, reads back as itself and leaves what follows |
| `Csv.JoinedReadsBack` | src/modules/catalog/catalog-orders.service.ts:219 | Joined lines read back as their rows, but for a last line that prints as nothing |
| `SalesAnalytics.AggregateCatalogSalesAnalytics` | src/modules/catalog/catalog-sales-analytics.util.ts:103-236 | The one pass with its running totals and three maps gives the report with a pass of its own for every figure |
| `SalesAnalytics.StatusRowsAddUp` | src/modules/catalog/catalog-sales-analytics.util.ts:133-137 | The status rows share out all orders and all amounts |
| `SalesAnalytics.PaidIsTheFiveStatuses` | src/modules/catalog/catalog-sales-analytics.util.ts:143-147 | Paid orders and revenue are the sums over the five paid statuses |
| `SalesAnalytics.PaidOrdersByStage` | src/modules/catalog/catalog-sales-analytics.util.ts:139-147 | Paid orders are the confirmed, the ready, the shipped and the delivered ones together |
| `SalesAnalytics.SeriesAddsUpIff` | src/modules/catalog/catalog-sales-analytics.util.ts:193-200 | The day series has all the paid orders if and only if each lies in range, and then all the revenue |
| `SalesAnalytics.ProductsAddUp` | src/modules/catalog/catalog-sales-analytics.util.ts:154-163 | All products together earn the paid revenue |
| `SalesAnalytics.TopProductsAreTop` | src/modules/catalog/catalog-sales-analytics.util.ts:202-210 | The top products are sold products with their own totals, none twice, best first, and a product is left out only when eight are kept, none of them worse |
| `SalesAnalytics.ReportedIncomeIsVerified` | src/modules/catalog/catalog-sales-analytics.util.ts:2-8 | Over the orders of any reachable shop the reported paid orders and income are those with a verified payment |
| `SalesAnalytics.ReportedIncomeIsPriceTimesUnits` | src/modules/catalog/catalog-sales-analytics.util.ts:103-236 | In a shop that began without orders and repriced no ordered product, it is price times units taken, over all products |
| `SalesAnalytics.TotalsAreCounts` | src/modules/catalog/catalog-sales-analytics.util.ts:130-168 | The totals of the report are the numbers and amounts of orders in the respective statuses |
| `SalesAnalytics.ChangeMeans` | src/modules/catalog/catalog-sales-analytics.util.ts:175-180 | The change of revenue is positive only for more and negative only for less income, absent exactly when neither period earned, and the nearest tenth of a percent |
| `SalesAnalytics.AverageMeans` | src/modules/catalog/catalog-sales-analytics.util.ts:182-183 | The average is revenue over paid orders to the nearest paisa and lies between the smallest and the largest paid order |
| `SalesAnalytics.ReportDates` | src/modules/catalog/catalog-sales-analytics.util.ts:77-215 | The period shown runs from the first to the last date of the series, which is today |
| `SalesKeys.ProductKeyIsInjective` | src/modules/catalog/catalog-sales-analytics.util.ts:154 | The string key never merges two different (id, name) pairs, whatever the names contain |
| `SalesKeys.DayKeyIsInjective` | src/modules/catalog/catalog-sales-analytics.util.ts:60-66 | Two days never share a date key |
| `SalesKeys.DayKeyReads` | src/modules/catalog/catalog-sales-analytics.util.ts:60-66 | The date text of a Gregorian date shows its year, month and day, in this order |
| `Tallies.GroupsAddUp` | src/modules/catalog/catalog-sales-analytics.util.ts:130-165 | Groups by distinct keys add up to the whole if and only if every key is among them |
| `Tallies.TableStep` | src/modules/catalog/catalog-sales-analytics.util.ts:133-163 | Bumping a map entry found by name is one more order in the many-pass table, if names tell keys apart |
| `Tallies.GroupsAreExact` | src/modules/catalog/catalog-sales-analytics.util.ts:133-163 | Each key that occurs has one row with its own tally, no other key has one |
| `Tallies.RankedIsStableSort` | src/modules/catalog/catalog-sales-analytics.util.ts:191 | Ranking sorts by amount, then orders, loses nothing and keeps ties in order |
| `Tallies.StableSortIsUnique` | src/modules/catalog/catalog-sales-analytics.util.ts:209 | Only one arrangement is sorted and keeps ties in order |
| `InboxDelivery.EachIdIsStoredOnce` | src/modules/inbox/inbox.service.ts:145-195 | Under any deliveries, retries, races and crashes a message id of an owner is stored at most once |
| `InboxDelivery.QueuedOnceIff` | src/modules/webhooks/webhooks.controller.ts:130-141 | A message is queued at most once, only if stored, and exactly once unless a call is about to queue it or crashed before it could |
| `InboxDelivery.ExactlyOnce` | src/modules/webhooks/webhooks.controller.ts:117-141 | When all calls have ended and none crashed between storing and queueing, every id of a call that went through is in one row, and that row is queued once |
| `InboxDelivery.LostStaysLost` | src/modules/webhooks/webhooks.controller.ts:117-141 | A message stored by a call that crashed before queueing it is never queued, whatever is retried |
| `InboxDelivery.UnreadSinceOpen` | src/modules/inbox/inbox.controller.ts:98-101 | From opening a conversation until the next time, its unread count is the number of messages stored for it since |
| `InboxDelivery.ExecKeepsInv` | src/modules/inbox/inbox.service.ts:86-195 | In every reachable state keys, senders and conversations are unique, every message lies in its sender's conversation, and queue and counters are exact |
| `InboxDelivery.FailsIff` | src/modules/inbox/inbox.service.ts:86-192 | A step ends a call early if and only if another call has added the contact or conversation of its sender meanwhile, or its message has an empty id under which one is stored |
| `InboxDelivery.SafeCallsNeverFail` | src/modules/webhooks/webhooks.controller.ts:117-141 | A call with identified messages from known senders never fails, whoever races it |
| `InboxDelivery.FirstMessagesRace` | src/modules/inbox/inbox.service.ts:86-102 | Two first messages of a new sender at the same time: one is stored and queued, the other is dropped |
| `InboxDelivery.AloneIsReceive` | src/modules/webhooks/webhooks.controller.ts:80-145 | A call that runs alone does what the webhook loop does, and fails when it does |
| `Inbox.RetryIsSilentIff` | src/modules/webhooks/webhooks.controller.ts:117-141 | Retrying a payload that went through changes and queues nothing if and only if every message has a non-empty id |
| `Inbox.NewSenderLeaves` | src/modules/inbox/inbox.service.ts:86-195 | The first message of a sender leaves one contact, named or by phone number, one conversation with one unread, the message and its place in the queue |
| `Inbox.KnownSenderAdds` | src/modules/inbox/inbox.service.ts:86-195 | A later one adds itself, its place in the queue and one unread, and nothing else |
| `Inbox.InboxService.StoreIncomingMessage` | src/modules/inbox/inbox.service.ts:133-195 | A free key stores the message and raises the unread count; a taken one answers with the row that holds it, or throws when the id is empty |
| `Inbox.InboxService.ReceivePayload` | src/modules/webhooks/webhooks.controller.ts:80-145 | The loop over a payload: duplicates are skipped, new messages stored and queued, an error abandons the rest |

Lemmas without a row lead up to these. Methods of the service classes without one are each proved to answer, and to
change the tables, as the specification functions of their module say.

## Left out

- CatalogTransactions.Refines: `attachScreenshot`, `setShippingAddress`, `shipOne` and `markDelivered` are one step each here, although the code reads and then writes; `LateScreenshotSellsTwice` shows why the split form does not refine the atomic service.
- Availability.RunKeepsDisjoint: bookings are created in one step, check and insert together; `CheckedTogetherDisjointIff` says what the split form keeps.
- Billing.RunKeeps: each billing method is one step, so two submissions or approvals that interleave their statements are not covered.
- Billing.DecisionsAreFinal: admin overrides of a user's access or subscription are not among the calls.
- Timezone.ConvertExactIff: zones that change their offset twice within two days, or that ever skip or repeat a whole day (Pacific/Apia did in 2011), are not covered, nor offsets with seconds; real zone data and `Intl` formatting are not modelled, nor is the parsing of date and time strings.
- Slots.EdgeRisesIff: a time whose probe leaves its month and finds another offset there than at first is not computed; the guarantees of `Guarantees.GuaranteesIff` and `Guarantees.ListsOnlyFreeIff` hold for it all the same.
- Slots.GenerateAvailableSlots: schedules arrive as minutes of the day; `HH:mm` parsing and printing are left out.
- SalesAnalytics.AggregateCatalogSalesAnalytics: amounts are whole paise, so the rounding of floating-point rupees is not modelled; average and change of revenue are rounded quotients of integers.
- InboxDelivery.UnreadSinceOpen: opening a conversation is its counter reset alone; a message that arrives between the listing and the reset counts as read.
- InboxDelivery.ExactlyOnce: the job queue is a list of message ids; its own retries and the fallback without a queue are left out.
- Filling in a missing name of a known Instagram contact is left out, and the sender arrives normalised.
- Lifecycle.EachNoticeAtMostOnce: a crash after a notice is out and before it is recorded is not covered; a failed delivery is.
- Notifications, mail, WhatsApp, Instagram and Razorpay calls, storage, PDFs, audit and logs: foreign input and output.
- Order numbers, product creation and deletion, courier link templates: random, or decided elsewhere; a link is an input of `ship`.
- Contact and conversation lookups of bookings, schedule editing and its validation: one-branch checks.
- The career product, subscription creation and cancellation at Razorpay, lazy expiry inside status queries: separate flows with the same shape.
- Payment proof upload and the check that UPI is configured: only the size of the proof is checked here.
- Signature check and price fallback of a checkout: the amount is an input.
- Product fields other than stock, price and visibility, and changes of a site's payment settings, contacts and media: plain columns.
- Listing, filtering and paging: plain queries.
