# Barber CRM: a verified model

A Dafny model of the parts of Barber CRM where services meet: slot generation and the booking
table, week arithmetic shared by three services, the event consumers behind client and analytics
data, the gateway's rate limiter, and the migration ledgers. `dafny verify dfyconfig.toml` checks
everything.

## What is modelled

- **Bookings.** `BookingStore` is the bookings table with the repository's transactions, each one
  atomic step; `BookingService` adds the service layer and its published events as a state machine
  (`Step`). `BookingSafety` proves what runs of it keep. `ConcurrentCalls` takes a call apart into
  its check, its transaction, its second read and its event, with other calls in between.
  `CallAnswers` says in plain columns what callers hear and what is stored, `EventClock` what the
  clock in the events is good for. Times are nanoseconds since the Unix epoch.
- **Slots.** `SlotEngine` has the loops that build the staff grid, the free list and the compact
  list. `OfferedIsBookable`, `CompactDays`, `CompactRuns` and `StaffGrid` connect them to the table:
  offered slots are accepted, compact days stay in one block, booked quarter hours add up.
  `Listings` has the listings of staff and clients, described in minutes of the working day;
  `PlainRows` has the words for that.
- **Weeks.** `Calendar` and `IsoWeeks` cover the week key that booking prints and staff parses
  (week rule of sections 2.2.10 and 4.1.4 of ISO 8601:2004), the schedule window, and the week and
  month of analytics. `Decimal` is the printing and parsing underneath.
- **Consumers.** `ClientVisits` counts visits under redelivery, reordering and crashes;
  `CompletionEvents` says which completed bookings are announced, and `VisitsEndToEnd` joins the
  counters to the booking calls. `AnalyticsReplica` is the newest-version copy of bookings;
  `DailyBreakdown` is the merged day table.
- **Rate limiter.** `TokenBuckets` and `RateLimiter`, with real-valued tokens and seconds.
- **Migrations.** `MigrationNames`, `Migrations` (staff) and `AnalyticsLedger` (append-only log).
- `BarberList` is the grouping of joined rows into barbers. `Runs` and `Sorting` hold what several
  modules share.

## Results that are false without a condition

Each of these is stated with the exact condition and with an input on which it fails.

- The service allows a cancelled or missed booking to become active again without looking at the
  day, although a comment in `services/booking/internal/model/model.go:12` calls those statuses
  final. A day stays free of overlaps exactly in the runs where no such change meets an occupied
  interval (`NoDoubleBookingOverRuns`, `ReactivationDoubleBooks`). The same holds for one pending
  booking per phone (`OnePendingOverRuns`, `PendingTwice`).
- Conflicts are only sought under one UTC date, so a booking across midnight can be overlapped by a
  new, a moved or a reactivated one. A barber's bookings never overlap exactly in the runs where no
  operation is accepted against a booking that nothing looks at (`NeverOverlappingOverRuns`,
  `MidnightOverlapIsAccepted`, `MovedIntoMidnightBooking`).
- When service calls overlap, the events of a booking end at its row in every order of finishing
  exactly when no transaction overtakes a call on the same booking that has something else still to
  publish (`EventsFollowTableExactly`, `StatusesCross`).
- The ordinary free list ignores active bookings that are not pending; a slot it offers is turned
  away exactly when such a booking overlaps (`OrdinaryOfferOutcome`, `CompletedVisitIsOfferedAgain`).
- Booking a compact slot adds a busy block exactly on the full-grid branch, which today includes the
  time after the last booking (`CompactSlotBlocks`). A day filled from its compact offers stays free
  of gaps exactly while no such late offer is taken (`GapFreeExactly`, `LateOfferOpensBlock`).
- Every completed booking is announced as completed exactly when none is deleted before the call that
  completed it reads it again, with nothing else to announce it (`CompletionsAreAnnouncedExactly`,
  `DeletedCompletionIsLost`).
- `roundUp` tests divisibility from 1970 and truncates from year 1; it finds the next grid point
  exactly when the step divides the distance or the instant is on the grid (`RoundUpExact`,
  `SevenMinuteStepMissesGrid`). The service only passes 15 minutes, for which it always does
  (`SlotStepRoundsUp`).
- Staff understands a week key exactly when its year takes four characters (`WeekKeyRoundTrip`,
  `Year999IsRejected`). That includes some negative years, which the format of requested dates cannot
  express.
- Analytics shows the last version of a booking for every delivery order exactly when nothing
  different was published in the same second or later (`ConvergesExactly`, `SameSecondHidesChange`).
- Daily hours add up to the schedule exactly when no two live rows share a date
  (`HoursMatchExactly`, `TwoRowsOfOneDate`). Staff only takes shifts that end after they start
  (`services/staff/internal/service/service.go:296-298`), which the converse needs.
- Evicting idle buckets is invisible when a bucket refills in ten idle minutes
  (`EvictionIsInvisible`), and shows in some run with sweeps every five minutes whenever it does not
  (`EvictionShowsOtherwise`).
- A migration's down file is found under the name built for it exactly when the version is written
  the way `%03d` writes it (`CanonicalExactly`, `ShortVersionIsLost`), and the append-only log has a
  certain answer exactly when opposite entries of a version do not share a time stamp
  (`AnswerIsCertain`, `SameTickIsAmbiguous`).

## Assumptions

Transactions run one at a time. Service calls may overlap in `ConcurrentCalls`, `CompletionEvents`
and `VisitsEndToEnd`; in the other modules an operation is one step, and `CallsRefineSteps` carries what is proved about
tables over to overlapping calls. The server clock and the dates of slot requests are in UTC.
Answers of the staff service, fresh ids, clock readings and failures of single attempts are inputs.
Durations of services are positive multiples of 15 minutes because staff refuses others
(`services/staff/internal/service/service.go:203-204`); lemmas that need this say so.

## Model

| member | source | states |
|---|---|---|
| `BookingStore.BookingRepo.CreateBookingTx` | services/booking/internal/repo/repo.go:30-89 | answers pending-exists, conflict, constraint violation or ok exactly as the whole table decides, and inserts the row only when ok |
| `BookingStore.BookingRepo.UpdateBookingDetailsTx` | services/booking/internal/repo/repo.go:113-181 | conflicts with any other active row of the target day, never with itself; moves the row and its date only when ok |
| `BookingStore.BookingRepo.UpdateBookingStatus` | services/booking/internal/repo/repo.go:183-195 | changes one status and nothing else; only the unique index can refuse it |
| `BookingStore.BookingRepo.DeleteBooking` | services/booking/internal/repo/repo.go:197-206 | removes exactly that row, not found otherwise |
| `PlainRows.ListingIsPlain` | services/booking/internal/repo/repo.go:297-349 | the rows listed for a day are those of the barber and date that are pending, or not cancelled or missed, each once, by start |
| `BookingStore.IndexGuardsUniqueness` | services/booking/migrations/003_add_slot_unique_index.up.sql:1-3 | the index rejects a row if and only if writing it would give a barber two active rows with one start |
| `BookingStore.BookingRepo.ListDay` | services/booking/internal/repo/repo.go:297-349 | exactly the matching rows of the day, each once, by start time |
| `BookingService.FindService` | services/booking/internal/services/services.go:98-108 | the first service with the id, none if no entry has it |
| `BookingService.LookUp` | services/booking/internal/services/services.go:98-104 | the scanning loop finds the first service with the id |
| `BookingService.BookingServer.CreateBooking` | services/booking/internal/services/services.go:87-134 | derived end, date, price, name and status, one transaction, one event on success, nothing on failure |
| `BookingService.BookingServer.UpdateBookingDetails` | services/booking/internal/services/services.go:152-208 | owner check, lookup, reschedule, event with the stored row |
| `BookingService.BookingServer.UpdateBookingStatus` | services/booking/internal/services/services.go:210-240 | no write and no event when the status is unchanged, otherwise write and event |
| `BookingService.BookingServer.DeleteBooking` | services/booking/internal/services/services.go:242-264 | owner check, removal, no event |
| `CallAnswers.CreateAnswers` | services/booking/internal/services/services.go:87-134 | a booking is turned away as existing if and only if the phone has a pending one or an active one of the barber on that UTC day is not over before it or starts before its end; otherwise row, event and answer hold the request, the service's name, price and length, and the clock |
| `CallAnswers.CreateRefusals` | services/booking/internal/services/services.go:88-111 | an unknown barber or service, or no answer about services, stores nothing |
| `CallAnswers.MovesWhenOthersAreClear` | services/booking/internal/repo/repo.go:133-159 | a reschedule is accepted if and only if every other active booking of the barber on the target day is over before it or starts after it; its own old time is no obstacle |
| `CallAnswers.RescheduleAnswers` | services/booking/internal/services/services.go:152-208 | the answer, the row and the event of a move: times, date, service, name and price are new, the rest of the row stays |
| `CallAnswers.RescheduleRefusals` | services/booking/internal/services/services.go:153-184 | another barber's booking, an unknown service, or no answer about services, moves nothing |
| `CallAnswers.StatusAnswers` | services/booking/internal/services/services.go:210-240 | which status changes are refused, answered without a write, or stored with an event, for any table |
| `CallAnswers.ActiveBookingsTakeAnyStatus` | services/booking/internal/repo/repo.go:183-195 | with different starts only a cancelled or missed booking can be refused a status |
| `CallAnswers.DeleteAnswers` | services/booking/internal/services/services.go:242-264 | only the barber's own booking goes, without an event |
| `BookingSafety.StepKeepsNoDoubleBooking` | services/booking/internal/repo/repo.go:52-72 | one operation keeps the day free of overlaps if and only if it is not a reactivation into an occupied interval |
| `BookingSafety.NoDoubleBookingOverRuns` | services/booking/internal/repo/repo.go:30-206 | over every run: no state is double booked if and only if no reactivation met an active overlapping booking |
| `BookingSafety.StepKeepsOnePending` | services/booking/internal/repo/repo.go:37-50 | one operation keeps one pending booking per phone if and only if it does not make a second one pending again |
| `BookingSafety.OnePendingOverRuns` | services/booking/internal/repo/repo.go:37-50 | over every run, across barbers: one pending booking per phone if and only if none became pending again beside another |
| `BookingSafety.PendingTwice` | services/booking/internal/repo/repo.go:183-195 | a four-step run from the empty table that ends with two pending bookings of one phone |
| `BookingSafety.RunKeepsShape` | services/booking/internal/services/services.go:114-115 | in every reachable state the date column is the UTC day of the start, and spans stay positive under positive durations |
| `BookingSafety.IndexNeverRejectsInsert` | services/booking/migrations/003_add_slot_unique_index.up.sql:1-3 | a new row that passed the scans is refused by the table only for a reused id |
| `BookingSafety.IndexNeverRejectsReschedule` | services/booking/migrations/003_add_slot_unique_index.up.sql:1-3 | a reschedule that passed the scan is never refused by the index |
| `BookingSafety.RunNeedsNoIndex` | services/booking/migrations/003_add_slot_unique_index.up.sql:1-3 | the same at every step of every run with positive durations, reactivations included |
| `BookingSafety.StartsStayUnique` | services/booking/migrations/003_add_slot_unique_index.up.sql:1-3 | in every state of every run, reactivations included, a barber's active bookings start at different instants |
| `BookingSafety.StepKeepsNeverOverlapping` | services/booking/internal/repo/repo.go:30-195 | one operation keeps all bookings of each barber disjoint, across dates, if and only if it is not accepted against an overlapping booking under another date or, for a reactivation, under any |
| `BookingSafety.NeverOverlappingOverRuns` | services/booking/internal/repo/repo.go:30-206 | over every run: bookings of a barber never overlap if and only if no operation was accepted that way |
| `BookingSafety.DisjointDaysSuffice` | services/booking/internal/repo/repo.go:52-58 | if no active booking runs past the midnight after its start, all bookings of a barber are disjoint |
| `BookingSafety.AcceptedAcrossDays` | services/booking/internal/repo/repo.go:52-72 | an accepted booking keeps all of them disjoint if and only if no row under another date overlaps it |
| `BookingSafety.ReactivationDoubleBooks` | services/booking/internal/repo/repo.go:183-195 | a four-step run from the empty table that ends double booked |
| `BookingSafety.MidnightOverlapIsAccepted` | services/booking/internal/repo/repo.go:52-72 | a two-step run of accepted creates whose bookings overlap across midnight |
| `BookingSafety.MovedIntoMidnightBooking` | services/booking/internal/repo/repo.go:133-159 | a run whose last step, a reschedule, makes bookings overlap across midnight |
| `Instants.RoundUpExact` | services/booking/internal/services/services.go:641-647 | the result is the least multiple at or after t if and only if t is a multiple or the step divides the distance between the origins |
| `Instants.SlotStepRoundsUp` | services/booking/internal/services/services.go:382-385 | for 15 minutes it is always the least multiple |
| `Instants.SevenMinuteStepMissesGrid` | services/booking/internal/services/services.go:641-647 | a step for which it is not |
| `SlotEngine.FirstDayIsFirst` | services/booking/internal/services/services.go:365-381 | the row at the least index with the date, none if no row has it |
| `SlotEngine.HoursArePlain` | services/booking/internal/services/services.go:365-391 | staff always sees the hours of the first row of the date; only a client's today starts at the least quarter hour three hours ahead instead |
| `SlotEngine.WorkingHours` | services/booking/internal/services/services.go:365-391 | the hours of that row; today the start is replaced by the rounded instant three hours ahead |
| `SlotEngine.BuildSlots` | services/booking/internal/services/services.go:355-454 | free mode: exactly the even grid points whose window fits and meets no pending booking, in order; staff mode: every fitting grid point with its earliest overlapping booking |
| `SlotEngine.FreeList` | services/booking/internal/services/services.go:414-448 | the free-mode loop, for any step and window |
| `SlotEngine.StaffList` | services/booking/internal/services/services.go:414-448 | the staff-mode loop, for any step and window |
| `SlotEngine.BuildCompactSlots` | services/booking/internal/services/services.go:460-560 | the full grid on an empty day or after today's last booking; otherwise exactly the starts that touch a booking, fit and overlap none, each once, increasing |
| `SlotEngine.Candidates` | services/booking/internal/services/services.go:516-546 | the candidate loop keeps exactly those starts, without duplicates |
| `SlotEngine.FirstOverlapIsEarliest` | services/booking/internal/services/services.go:424-437 | the first hit in a listing by start is the earliest-starting overlapping booking of the table |
| `OfferedIsBookable.CompactStartIsClear` | services/booking/internal/services/services.go:504-514 | every compact start overlaps no booking of a disjoint day, also on the branch that tests nothing |
| `OfferedIsBookable.SoundOverRuns` | services/booking/internal/repo/repo.go:30-206 | the state that the offers need holds throughout a run with positive durations if and only if nothing is reactivated into an occupied interval |
| `OfferedIsBookable.CompactOfferIsBookable` | services/booking/internal/services/services.go:460-560 | every compact slot is accepted by the create transaction for a phone without a pending booking |
| `OfferedIsBookable.OrdinaryOfferOutcome` | services/booking/internal/services/services.go:393-399 | an ordinary slot is refused as taken if and only if an active booking that is not pending overlaps it |
| `OfferedIsBookable.OrdinaryOfferIsBookable` | services/booking/internal/services/services.go:393-448 | every ordinary slot is accepted when all active bookings of the day are pending |
| `OfferedIsBookable.CompletedVisitIsOfferedAgain` | services/booking/internal/services/services.go:394 | a completed visit whose time is offered again |
| `OfferedIsBookable.CompletedVisitIsReached` | services/booking/internal/services/services.go:210-240 | that table is reached by a run from the empty one |
| `CompactDays.OneBlockIsGapFree` | services/booking/internal/services/services.go:456-459 | counting block heads agrees with looking for idle instants, both ways |
| `CompactDays.OneBlockIsChained` | services/booking/internal/services/services.go:456-459 | in one block each listed booking ends where the next starts |
| `CompactDays.TouchingSpanJoins` | services/booking/internal/services/services.go:516-546 | a clear span that touches the day never adds a block |
| `CompactDays.CompactSlotBlocks` | services/booking/internal/services/services.go:504-559 | on a disjoint day an accepted compact slot adds exactly one block on the full-grid branch and none otherwise |
| `CompactRuns.LateOfferOpensBlock` | services/booking/internal/services/services.go:504-514 | a two-step run in which a compact slot of today, after the last booking, opens a second block |
| `CompactRuns.TakenOfferIsBooked` | services/booking/internal/services/services.go:87-134 | a request for an offered compact slot is answered with the stored booking or with already-exists for a pending phone |
| `CompactRuns.GapFreeExactly` | services/booking/internal/services/services.go:504-559 | over every run that starts with the day empty and changes its spans only by compact offers, whatever happens to other days and barbers: the day never has a gap if and only if no booking is taken from an offer made today after the day's last booking |
| `CompactRuns.CompactStaysCompact` | services/booking/internal/services/services.go:504-559 | in every state of such a run up to the first late offer the day has no gap and each listed booking ends where the next one starts |
| `Listings.GetSlots` | services/booking/internal/services/services.go:266-268 | the working day of the first row of the date in quarter hours, whatever the time is; each is booked if and only if an active booking takes up some of it, and shows the earliest of those with client, phone, service and status |
| `Listings.ListStaffDay` | services/booking/internal/services/services.go:355-391 | from the schedule table to the grid: a day with a shift is listed from its start to its end, a day without is empty |
| `Listings.GetFreeSlots` | services/booking/internal/services/services.go:270-302 | zero duration counts as an hour; in ordinary mode exactly the half hours that fit and meet no pending booking, in compact mode exactly the starts that touch an active booking and meet none, or every half hour when nothing is ahead |
| `Listings.FreeStartIsOrdinary` | services/booking/internal/services/services.go:393-448 | an ordinary start is a half hour from the opening of the offer that fits and meets no pending row of the day |
| `Listings.CompactStartIsPlain` | services/booking/internal/services/services.go:504-546 | a compact start ends where an active row begins or begins where one ends, or is any half hour when no active row is ahead |
| `StaffGrid.GridCountsAndTiles` | services/booking/internal/services/services.go:414-448 | floor of the hours over 15 minutes slots, each starting where the one before ends |
| `StaffGrid.BookedSlotsAddUp` | services/booking/internal/services/services.go:424-446 | for disjoint aligned bookings inside the hours, 15 minutes times the booked slots is the booked time |
| `StaffGrid.BookingFillsItsSlots` | services/booking/internal/services/services.go:424-437 | each such booking appears on exactly its duration over 15 minutes slots |
| `StaffGrid.SlotCarriesOverlap` | services/booking/internal/services/services.go:424-437 | a slot carries a booking if and only if that booking overlaps it |
| `Calendar.YearStartClosedForm` | services/staff/internal/repository/repository.go:284-287 | year starts added up one by one equal the closed form with 4, 100 and 400, also before year 1 |
| `Calendar.YearOfExact` | services/booking/internal/services/services.go:356 | the year of a day is the one year whose days include it |
| `IsoWeeks.WeekStart` | services/booking/internal/services/services.go:356-357 | a day's Monday lies week - 1 weeks after the Monday of week 1 of its ISO year |
| `IsoWeeks.WeeksTile` | services/staff/internal/repository/repository.go:284-287 | a day has ISO week (y, w) if and only if it lies in the seven days w - 1 weeks after the Monday of the week of 4 January |
| `IsoWeeks.FiftyTwoOrFiftyThree` | services/staff/internal/repository/repository.go:284-287 | a year has 53 weeks if and only if it has 53 Thursdays, otherwise 52 |
| `IsoWeeks.YearsJoin` | services/staff/internal/repository/repository.go:284-287 | after the last week of a year comes week 1 of the next |
| `IsoWeeks.GoMondayOfJanuary` | services/staff/internal/repository/repository.go:285-286 | with Go's truncating remainder the expression is the Monday of the week of 4 January |
| `IsoWeeks.WeekKeyRoundTrip` | services/staff/internal/repository/repository.go:271-288 | the key booking prints parses to the day's Monday if and only if the year takes four characters, otherwise it is rejected |
| `IsoWeeks.Year999IsRejected` | services/staff/internal/repository/repository.go:273-275 | a day whose key is rejected |
| `IsoWeeks.SampleWeek` | services/booking/internal/services/services.go:356-357 | 1 January 2024 has the key 2024-W01 |
| `IsoWeeks.MalformedWeekFails` | services/staff/internal/repository/repository.go:271-275 | keys that are too short or lack the separator are rejected |
| `IsoWeeks.GetSchedule` | services/staff/internal/repository/repository.go:290-319 | exactly the barber's rows of the seven days, by date, each with its own start and end |
| `IsoWeeks.ScheduleForDay` | services/booking/internal/services/services.go:356-381 | asked with a day's key, the answer has that day's start and end whenever there is a row, and no row otherwise |
| `IsoWeeks.PeriodWeekIsIsoWeek` | services/analytics/internal/service/service.go:130-138 | the analytics week is the ISO week that booking prints and staff parses |
| `IsoWeeks.PeriodMonth` | services/analytics/internal/service/service.go:140-143 | the month range contains today, is as long as the month, and abuts the next one, December included |
| `IsoWeeks.PeriodsAsGiven` | services/analytics/internal/service/service.go:124-155 | a day is that day, all has no limits, a custom period is taken as given |
| `TokenBuckets.TokenBucket.Allow` | services/api-gateway/internal/middleware/rate_limiter.go:18-34 | refill, cap, then one token if there is one |
| `TokenBuckets.TokensInRange` | services/api-gateway/internal/middleware/rate_limiter.go:18-34 | tokens stay between zero and the maximum in every run |
| `TokenBuckets.LevelIsLeastHeadroom` | services/api-gateway/internal/middleware/rate_limiter.go:24-27 | the level is the least budget left over all windows that end now |
| `TokenBuckets.AdmitsExactlyWithinBudget` | services/api-gateway/internal/middleware/rate_limiter.go:18-34 | a request is admitted if and only if it keeps every window that ends with it within burst + rps * length |
| `TokenBuckets.BudgetIsPlain` | services/api-gateway/internal/middleware/rate_limiter.go:18-34 | the budget of a window is burst + rps * length |
| `TokenBuckets.RateBound` | services/api-gateway/internal/middleware/rate_limiter.go:18-34 | at most burst + rps * T requests in any window of length T |
| `RateLimiter.Limiter.Get` | services/api-gateway/internal/middleware/rate_limiter.go:53-69 | the client's bucket, created full if unknown; other clients untouched |
| `RateLimiter.Limiter.Request` | services/api-gateway/internal/middleware/rate_limiter.go:92-96 | decides by the client's own bucket and changes only that |
| `RateLimiter.Limiter.Cleanup` | services/api-gateway/internal/middleware/rate_limiter.go:71-83 | deletes exactly the buckets unused for more than ten minutes |
| `RateLimiter.SweepIsPlain` | services/api-gateway/internal/middleware/rate_limiter.go:71-83 | a sweep keeps exactly the buckets used within 600 seconds, as they are |
| `RateLimiter.EvictionIsInvisible` | services/api-gateway/internal/middleware/rate_limiter.go:53-106 | if a bucket refills in ten minutes, every request of every run is answered as without eviction |
| `RateLimiter.GatewayEvictsInvisibly` | services/api-gateway/cmd/main.go:81-81 | that is so for the gateway's own settings |
| `RateLimiter.EvictionShowsOtherwise` | services/api-gateway/internal/middleware/rate_limiter.go:71-83 | if it does not, some run with exactly the sweeps of the five-minute ticker gets different answers |
| `RateLimiter.LimiterDecidesPerClient` | services/api-gateway/internal/middleware/rate_limiter.go:85-106 | the whole limiter answers a client as one bucket fed with its requests alone |
| `RateLimiter.LimiterRateBound` | services/api-gateway/internal/middleware/rate_limiter.go:53-106 | the rate bound for each client in every run, eviction included |
| `ClientVisits.ClientRepo.EnsureClient` | services/client/internal/repository/repository.go:26-39 | creates the client with no visits or updates only the name |
| `ClientVisits.ClientRepo.UpsertByBooking` | services/client/internal/repository/repository.go:43-79 | one atomic write: marks the booking, counts it only the first time |
| `ClientVisits.ClientRepo.Delete` | services/client/internal/repository/repository.go:165-176 | removes the barber's client with that id, found or not |
| `ClientVisits.EnsureIsPlain` | services/client/internal/repository/repository.go:26-39 | creates a row without visits, or changes the name of the one there is and nothing else; other clients stay |
| `ClientVisits.CountIsPlain` | services/client/internal/repository/repository.go:50-76 | an unseen booking adds one visit, renames, and moves last_visit forward; a seen one changes nothing; other clients stay |
| `ClientVisits.StaffWritesArePlain` | services/client/internal/repository/repository.go:165-176 | editing by id changes name and notes only, deleting takes the barber's row with that id only |
| `ClientVisits.RetryInsert` | services/client/internal/consumer/consumer.go:124-143 | at most five attempts, doubling waits, stops on success or cancellation; the write repeats once for each attempt that took effect |
| `Retry.WaitsAfterFiveFailures` | services/client/internal/consumer/consumer.go:124-143 | five failures wait half a second, one, two, four and eight |
| `ClientVisits.Process` | services/client/internal/consumer/consumer.go:93-120 | one delivery ensures the client, then counts only completed visits, and only after the first step succeeded |
| `ClientVisits.VisitsAreExact` | services/client/internal/repository/repository.go:41-79 | in every history of writes a client's counter is the number of bookings first counted for it since its last deletion, and last_visit is the latest of their first processed events |
| `ClientVisits.CountsDistinctBookings` | services/client/internal/repository/repository.go:50-61 | those writes belong to different bookings |
| `ClientVisits.ExactlyOnce` | services/client/internal/repository/repository.go:41-79 | without deletions, if a booking always names one client, visits equal the number of distinct bookings counted for it, in any order and with any repetition |
| `VisitsEndToEnd.EventsNameOneClient` | services/booking/internal/services/services.go:569-582 | in every run of overlapping calls under fresh ids, all events of a booking name the same barber and phone |
| `VisitsEndToEnd.ConsumeAll` | services/client/internal/consumer/consumer.go:66-122 | whatever is fetched, only completed events are counted, and each fetched completed event is counted or reported as given up |
| `VisitsEndToEnd.ExactlyOnceEndToEnd` | services/client/internal/consumer/consumer.go:93-120 | from booking calls to counters: visits equal the client's distinct bookings with a processed completed event, and all its bookings with a published one once each was counted at least once |
| `VisitsEndToEnd.CompletedRowIsInLog` | services/booking/internal/services/services.go:228-238 | a booking that is completed in the table, with no call on it under way, has a completed event in its client's name |
| `VisitsEndToEnd.VisitsCountCompletions` | services/booking/internal/services/services.go:228-238 | if no deletion swallowed a completion, none is still to be announced and each completed event was counted, visits equal the client's bookings ever completed |
| `CompletionEvents.MoveLosesExactly` | services/booking/internal/services/services.go:228-238 | one move keeps every completion announced or on its way if and only if it is no second read that finds the booking deleted with nothing else to announce it |
| `CompletionEvents.CompletionsAreAnnouncedExactly` | services/booking/internal/services/services.go:210-264 | over every run of overlapping calls: every booking ever completed is announced, or will be by a call under way, if and only if no such second read happens |
| `CompletionEvents.DeletedCompletionIsLost` | services/booking/internal/services/services.go:228-264 | a run in which a booking is completed and no event ever says so |
| `ClientVisits.VisitsSumToProcessed` | services/client/internal/repository/repository.go:50-72 | without deletions the counters sum to the number of processed bookings |
| `AnalyticsReplica.Consume` | services/analytics/internal/consumer/consumer.go:96-112 | appends the row once for each attempt that took effect and commits only after success |
| `AnalyticsReplica.RunKeepsLog` | services/booking/internal/services/services.go:132-238 | while service calls run one at a time, each booking equals the content of its last published event in every state |
| `AnalyticsReplica.ConvergesExactly` | services/analytics/migrations/001_create_bookings.up.sql:13-17 | every complete delivery ends at the last event if and only if nothing different was published in the same second or later |
| `AnalyticsReplica.SameSecondHidesChange` | services/analytics/migrations/001_create_bookings.up.sql:13-17 | a booking made and completed in one second that analytics reads as pending |
| `AnalyticsReplica.ReplicaMirrorsBooking` | services/analytics/internal/consumer/consumer.go:181-222 | while service calls run one at a time, once all events have arrived, analytics reads the booking's row as stored, to the second, if its last change is the newest by the second |
| `AnalyticsReplica.IncreasingSecondsSuffice` | services/booking/internal/services/services.go:581 | strictly increasing whole seconds are enough |
| `ConcurrentCalls.CallsRefineSteps` | services/booking/internal/services/services.go:87-264 | every run of overlapping calls has the tables of a run of one-step operations |
| `ConcurrentCalls.OneCallIsAStep` | services/booking/internal/services/services.go:87-264 | a call that nothing overlaps is the one-step operation, table and events |
| `ConcurrentCalls.NoDoubleBookingOverCalls` | services/booking/internal/repo/repo.go:30-206 | overlapping calls double book a day if and only if a commit reactivates into an occupied interval |
| `ConcurrentCalls.SettlesExactly` | services/booking/internal/services/services.go:228-238 | the calls under way lead to the booking's row in every order of finishing if and only if all of them agree with it |
| `ConcurrentCalls.MoveKeepsCurrent` | services/booking/internal/services/services.go:192-238 | one move keeps every booking so if and only if it is no transaction that overtakes a call with something else to publish |
| `ConcurrentCalls.EventsFollowTableExactly` | services/booking/internal/services/services.go:87-240 | over every run of overlapping calls: in every state all calls under way lead to the rows if and only if no transaction overtook such a call |
| `ConcurrentCalls.StatusesCross` | services/booking/internal/services/services.go:228-238 | a run of two overlapping status calls that ends with row and last event apart |
| `ConcurrentCalls.TurnsSuffice` | services/booking/internal/services/services.go:87-240 | over every run in which calls on one booking take turns between transaction and event, all events end at the rows, calls on different bookings overlapping freely |
| `ConcurrentCalls.ReplicaMirrorsCalls` | services/analytics/internal/consumer/consumer.go:181-222 | without such overtaking, once no call on a booking is under way and its events have arrived, analytics reads its row, if its last change is the newest by the second |
| `EventClock.StepPublishesNow` | services/booking/internal/services/services.go:569-582 | a call appends at most one event, for its booking and with its reading of the clock |
| `EventClock.MovePublishesNow` | services/booking/internal/services/services.go:569-582 | among overlapping calls only publishing appends an event, with the reading at that moment |
| `EventClock.ReplicaShowsBooking` | services/analytics/internal/consumer/consumer.go:181-222 | from the empty service, if the clock advances by the second between changes of a booking, analytics shows every column of its row once all events arrived in any order |
| `EventClock.ReplicaShowsCalls` | services/analytics/internal/consumer/consumer.go:181-222 | the same for overlapping calls of which none overtakes another, once none on the booking is under way |
| `EventClock.VersionIsSecond` | services/analytics/internal/consumer/consumer.go:181-222 | the version of a stored row is the second of its event's clock reading |
| `DailyBreakdown.GetDailyBreakdown` | services/analytics/internal/repository/repository.go:171-223 | one entry for each date of either source, strictly by date, with that date's clients, revenue and hours |
| `DailyBreakdown.DatesPartitionTotal` | services/analytics/internal/repository/repository.go:147-155 | grouping by date loses and repeats nothing |
| `DailyBreakdown.StatsCountCompleted` | services/analytics/internal/repository/repository.go:60-68 | a completed row adds one client and its price, any other row nothing |
| `DailyBreakdown.OneMoreVisit` | services/analytics/internal/repository/repository.go:147-155 | a completed row adds one client and its price to exactly the day its start falls on, any other row nothing; hours stay |
| `DailyBreakdown.FirstVisitOfDay` | services/analytics/internal/repository/repository.go:147-155 | a day that gets its first row shows one client and its price if the row is completed, else zeros |
| `DailyBreakdown.TableHasItsDates` | services/analytics/internal/repository/repository.go:171-223 | the dates are those on which a row starts or a shift is planned |
| `DailyBreakdown.OneMoreShift` | services/analytics/internal/repository/repository.go:200-211 | a shift gives its date the hours from its start to its end and adds its minutes to the total; other dates stay |
| `DailyBreakdown.BreakdownConserves` | services/analytics/internal/repository/repository.go:56-106 | days sum to the aggregate clients and revenue, and hours to the schedule minutes less overwritten rows |
| `DailyBreakdown.HoursMatchExactly` | services/analytics/internal/repository/repository.go:200-211 | for shifts that end after they start, hours match the schedule total if and only if no two live rows share a date; for any shifts, if and only if overwritten rows have no minutes in sum |
| `DailyBreakdown.TwoRowsOfOneDate` | services/analytics/internal/repository/repository.go:200-211 | with two live rows for one date every day table shows two hours and the total has three |
| `MigrationNames.ParseInvertsPrint` | services/staff/internal/migrator/migrator.go:217-236 | the parser inverts the printed name for every 64-bit version and slash-free name |
| `MigrationNames.ParsesExactly` | services/staff/internal/migrator/migrator.go:217-236 | a name is understood if and only if digits for a 64-bit version come before an underscore; the rest up to the extension is the name |
| `MigrationNames.SampleNames` | services/staff/internal/migrator/migrator.go:86-92 | version 7 named init is printed as 007_init with direction and extension, and read back from that |
| `MigrationNames.CanonicalExactly` | services/staff/internal/migrator/migrator.go:86-92 | Down's name for a parsed file is the file's own if and only if its version is written as %03d writes it |
| `MigrationNames.ShortVersionIsLost` | services/staff/internal/migrator/migrator.go:87-92 | a file that is applied but not found again |
| `Migrations.AppliedIsPrefix` | services/staff/internal/migrator/migrator.go:40-102 | after any run of applications and rollbacks, stopped anywhere, the applied versions are a prefix of the sorted ones |
| `Migrations.LoadMigrations` | services/staff/internal/migrator/migrator.go:131-174 | exactly the files not yet applied, by version |
| `Migrations.StaffMigrator.Up` | services/staff/internal/migrator/migrator.go:40-69 | success means every version is applied; a failure leaves exactly the committed ones added |
| `Migrations.StaffMigrator.Down` | services/staff/internal/migrator/migrator.go:71-102 | removes exactly the greatest applied version, or nothing |
| `Migrations.StaffMigrator.ApplyInTx` | services/staff/internal/migrator/migrator.go:176-195 | schema and ledger change together or not at all |
| `Migrations.StaffMigrator.RollbackInTx` | services/staff/internal/migrator/migrator.go:197-215 | schema and ledger change back together or not at all |
| `AnalyticsLedger.LogRefinesSet` | services/analytics/internal/migrator/migrator.go:132-158 | reading the log by newest entry gives the set that the recorded moves produce |
| `AnalyticsLedger.AnswerIsCertain` | services/analytics/internal/migrator/migrator.go:137-141 | with repeated clock readings the answer is certain if and only if no opposite entry shares the last entry's time |
| `AnalyticsLedger.SameTickIsAmbiguous` | services/analytics/internal/migrator/migrator.go:26-26 | a log with two possible answers |
| `AnalyticsLedger.AnalyticsMigrator.AppliedVersions` | services/analytics/internal/migrator/migrator.go:132-158 | the versions whose newest entry is "up" |
| `AnalyticsLedger.AnalyticsMigrator.MigrateUp` | services/analytics/internal/migrator/migrator.go:52-85 | success means every version is recorded; a failure leaves exactly the recorded ones added; the log only grows |
| `AnalyticsLedger.AnalyticsMigrator.MigrateDown` | services/analytics/internal/migrator/migrator.go:87-121 | removes exactly the greatest applied version by appending one entry, or nothing |
| `BarberList.GroupRows` | services/staff/internal/repository/repository.go:131-157 | one barber for each id in order of first rows, with all services of its rows in row order |
| `BarberList.ServicesInRowOrder` | services/staff/internal/repository/repository.go:131-157 | a barber's services are those on its rows, each row once, in row order |
| `BarberList.GroupingIsUnique` | services/staff/internal/repository/repository.go:85-111 | the rows determine that answer completely |

## Left out

- Interleaved transactions: `FOR UPDATE` locks only rows that exist, so two creates at once are not covered; transactions are serial here.
- created_at and updated_at columns, the client settings other than the compact switch, and the listing of a client's past bookings.
- Parsing of schedule times and formatting of dates: schedule rows carry minutes and day numbers.
- Time zones: requests and the server clock are taken to be in UTC.
- The columns that the pending listing does not select; only its times are used.
- `BuildSlots`: its one loop with a mode flag is written as one loop for each mode.
- Failures of the schedule, settings and booking queries, which the service turns into internal errors; a failed second read, for one, leaves a committed change without an event.
- The publisher's background retries: a delivery may be late or repeated, but whether all four attempts fail is not modelled; convergence asks that each event arrives at least once.
- Messages given up after five failed attempts, and committing a later offset past a failed one.
- ClickHouse merging and monthly partitions: a query with FINAL is taken to return the newest version over all partitions, the last inserted of equals.
- Schedule events in analytics, top services and the other counters of the aggregate query; both day queries and the aggregate are taken over the same selected rows.
- The gap between the limiter's two lock sections, in which a bucket can be evicted while held, and float rounding of tokens.
- Analytics migrations run a statement and record it separately, so schema and ledger can part; only the ledger is modelled there.
- Two migration files with one version, files that do not parse, and the simpler booking and client migrators.
- Service and barber tables, pagination of barbers, schedule updates, login, handlers, metrics and configuration: one-branch code.
