/**
 The slot listings as a client or the staff sees them: minutes of the working day, and bookings
 described by their columns.
 */
module Listings {
  import opened Wrappers
  import opened Instants
  import opened BookingStore
  import opened SlotEngine
  import opened StaffGrid
  import opened PlainRows
  import opened IsoWeeks

  predicate CardShows(card: SlotBooking, b: Booking) {
    && card.bookingId == b.id && card.clientName == b.clientName && card.clientPhone == b.clientPhone
    && card.serviceName == b.serviceName && card.status == b.status
  }

  // ---- staff ----

  /** One quarter hour. It is booked exactly when an active booking takes up some of it, and then shows
      the earliest of those. */
  ghost predicate QuarterHour(slot: Slot, rows: Table, barberId: string, date: int, start: int) {
    && slot.timeStart == start && slot.timeEnd == start + 15 * MINUTE
    && (slot.booking.None? ==>
          slot.status == Free
          && forall id :: id in rows && OccupiesDate(rows[id], barberId, date) ==> !Meets(rows[id], start, start + 15 * MINUTE))
    && (slot.booking.Some? ==>
          slot.status == Booked
          && exists id :: id in rows && CardShows(slot.booking.value, rows[id])
                          && OccupiesDate(rows[id], barberId, date) && Meets(rows[id], start, start + 15 * MINUTE)
                          && forall k :: k in rows && OccupiesDate(rows[k], barberId, date)
                                         && Meets(rows[k], start, start + 15 * MINUTE) ==>
                                           rows[id].timeStart <= rows[k].timeStart)
  }

  /** The working day from one minute to another in quarter hours, whatever the time is now. */
  ghost predicate StaffDay(slots: seq<Slot>, rows: Table, barberId: string, date: int, fromMinute: int, toMinute: int) {
    && |slots| == (if toMinute < fromMinute then 0 else (toMinute - fromMinute) / 15)
    && forall k :: 0 <= k < |slots| ==>
                     QuarterHour(slots[k], rows, barberId, date, date * DAY + (fromMinute + 15 * k) * MINUTE)
  }

  lemma GridSlotIsQuarterHour(slot: Slot, rows: Table, barberId: string, date: int, t: int)
    requires WellKeyed(rows) && GridSlot(slot, rows, barberId, date, t, SLOT_STEP)
    ensures QuarterHour(slot, rows, barberId, date, t)
  {
    if slot.booking.Some? {
      var id :| id in rows && slot.booking.value == CardOf(rows[id])
                && EarliestOverlap(rows, barberId, date, id, t, t + SLOT_STEP);
      assert CardShows(slot.booking.value, rows[id]);
      forall k | k in rows && OccupiesDate(rows[k], barberId, date) && Meets(rows[k], t, t + 15 * MINUTE)
        ensures rows[id].timeStart <= rows[k].timeStart
      {
        assert OnDay(rows[k], barberId, date);
      }
    } else {
      forall id | id in rows && OccupiesDate(rows[id], barberId, date)
        ensures !Meets(rows[id], t, t + 15 * MINUTE)
      {
        assert Listed(rows[id], barberId, date, false);
      }
    }
  }

  lemma GridIsStaffDay(slots: seq<Slot>, rows: Table, barberId: string, date: int, fromMinute: int, toMinute: int)
    requires WellKeyed(rows)
    requires IsStaffGrid(slots, rows, barberId, date, Hours(date * DAY + fromMinute * MINUTE, date * DAY + toMinute * MINUTE),
                         SLOT_STEP, SLOT_STEP)
    ensures StaffDay(slots, rows, barberId, date, fromMinute, toMinute)
  {
    var h := Hours(date * DAY + fromMinute * MINUTE, date * DAY + toMinute * MINUTE);
    GridCountsAndTiles(slots, rows, barberId, date, h);
    forall k | 0 <= k < |slots|
      ensures QuarterHour(slots[k], rows, barberId, date, date * DAY + (fromMinute + 15 * k) * MINUTE)
    {
      GridSlotIsQuarterHour(slots[k], rows, barberId, date, GridPoint(h.start, SLOT_STEP, k));
    }
  }

  /** Row i is the first with this date. */
  predicate FirstRowAt(days: seq<WorkDay>, date: int, i: nat) {
    i < |days| && days[i].date == date && forall j :: 0 <= j < i ==> days[j].date != date
  }

  lemma FirstRowIsFound(days: seq<WorkDay>, date: int, i: nat)
    requires FirstRowAt(days, date, i)
    ensures FirstDay(days, date) == Some(days[i])
  {
    FirstDayIsFirst(days, date);
    assert days[i].date == date;
    var k :| 0 <= k < |days| && days[k] == FirstDay(days, date).value && days[k].date == date
             && forall j :: 0 <= j < k ==> days[j].date != date;
    assert i < k || k < i || i == k;
  }

  /** The staff listing of a day. */
  method GetSlots(repo: BookingRepo, barberId: string, date: int, days: seq<WorkDay>, now: int)
    returns (slots: seq<Slot>)
    requires repo.Valid()
    ensures (forall i :: 0 <= i < |days| ==> days[i].date != date) ==> slots == []
    ensures forall i: nat :: FirstRowAt(days, date, i) ==>
                               StaffDay(slots, repo.rows, barberId, date, days[i].startMinute, days[i].endMinute)
    ensures HoursOn(days, date, now, false, SLOT_STEP).Some? ==>
              IsStaffGrid(slots, repo.rows, barberId, date, HoursOn(days, date, now, false, SLOT_STEP).value,
                          SLOT_STEP, SLOT_STEP)
  {
    slots := BuildSlots(repo, barberId, date, days, now, false, SLOT_STEP, SLOT_STEP);
    HoursArePlain(days, date, now, false, SLOT_STEP);
    forall i: nat | FirstRowAt(days, date, i)
      ensures StaffDay(slots, repo.rows, barberId, date, days[i].startMinute, days[i].endMinute)
    {
      FirstRowIsFound(days, date, i);
      GridIsStaffDay(slots, repo.rows, barberId, date, days[i].startMinute, days[i].endMinute);
    }
  }

  /** From the schedule table to the grid: the listing of a day on which the barber works covers its shift,
      other days are empty, and a date whose week key is not understood fails. */
  method ListStaffDay(repo: BookingRepo, schedule: Schedule, barberId: string, date: int, now: int)
    returns (slots: Result<seq<Slot>>)
    requires repo.Valid()
    ensures slots.Success? <==> FourCharacterYear(IsoWeek(date + Calendar.UNIX_DAY).year)
    ensures slots.Success? ==>
              if (barberId, date) in schedule
              then StaffDay(slots.value, repo.rows, barberId, date, schedule[(barberId, date)].startMinute,
                            schedule[(barberId, date)].endMinute)
              else slots.value == []
  {
    var days := ScheduleForDay(schedule, barberId, date);
    if days.Failure? {
      return Failure;
    }
    var listed := GetSlots(repo, barberId, date, days.value, now);
    if (barberId, date) in schedule {
      var shift := schedule[(barberId, date)];
      ghost var row := WorkDay(date, shift.startMinute, shift.endMinute);
      ghost var i :| 0 <= i < |days.value| && days.value[i] == row && row.date == date
                     && forall j :: 0 <= j < i ==> days.value[j].date != date;
      assert FirstRowAt(days.value, date, i);
    }
    slots := Success(listed);
  }

  // ---- clients ----

  /** What the client may start at: hours of the first row of the date, or for today from the first quarter
      hour at least three hours ahead. */
  ghost predicate OfferFrom(days: seq<WorkDay>, date: int, now: int, i: nat, start: int)
    requires i < |days|
  {
    if date * DAY <= now < (date + 1) * DAY
    then
      && start % (15 * MINUTE) == 0 && now + 180 * MINUTE <= start
      && forall m :: m % (15 * MINUTE) == 0 && now + 180 * MINUTE <= m ==> start <= m
    else start == date * DAY + days[i].startMinute * MINUTE
  }

  lemma ClientHours(days: seq<WorkDay>, date: int, now: int, i: nat)
    requires FirstRowAt(days, date, i)
    ensures var h := HoursOn(days, date, now, true, SLOT_STEP);
            h.Some? && OfferFrom(days, date, now, i, h.value.start) && h.value.end == date * DAY + days[i].endMinute * MINUTE
  {
    FirstRowIsFound(days, date, i);
    SlotStepRoundsUp(now + 3 * HOUR);
    DayOfInstant(date, now);
  }

  lemma HalfHourGrid(t: int, start: int)
    ensures OnGrid(t, start, 2 * SLOT_STEP) <==> start <= t && (t - start) % (30 * MINUTE) == 0
  {
    if OnGrid(t, start, 2 * SLOT_STEP) {
      var k: nat :| t == GridPoint(start, 2 * SLOT_STEP, k);
      assert t - start == k * (30 * MINUTE);
    }
    if start <= t && (t - start) % (30 * MINUTE) == 0 {
      var k := (t - start) / (30 * MINUTE);
      assert t == GridPoint(start, 2 * SLOT_STEP, k);
    }
  }

  /** The ordinary offer: every half hour from the start whose window fits before closing and meets no
      pending booking of the day. */
  ghost predicate OrdinaryStart(rows: Table, barberId: string, date: int, start: int, end: int, window: int, t: int) {
    && start <= t < end && (t - start) % (30 * MINUTE) == 0 && t + window <= end
    && forall id :: id in rows && rows[id].barberId == barberId && rows[id].date == date && rows[id].status == Pending ==>
                      !Meets(rows[id], t, t + window)
  }

  lemma FreeStartIsOrdinary(rows: Table, barberId: string, date: int, h: Hours, window: int, t: int)
    ensures t in FreeStarts(rows, barberId, date, h, SLOT_STEP, window)
            <==> OrdinaryStart(rows, barberId, date, h.start, h.end, window, t)
  {
    HalfHourGrid(t, h.start);
    if Taken(rows, barberId, date, true, t, t + window) {
      var id :| id in rows && Listed(rows[id], barberId, date, true)
                && Overlaps(t, t + window, rows[id].timeStart, rows[id].timeEnd);
      assert rows[id].barberId == barberId && rows[id].date == date && rows[id].status == Pending;
    }
    if id :| id in rows && rows[id].barberId == barberId && rows[id].date == date && rows[id].status == Pending
             && Meets(rows[id], t, t + window) {
      assert Listed(rows[id], barberId, date, true);
    }
  }

  /** The compact offer on a day with bookings: every start whose window begins where a booking ends, or
      ends where one begins, fits the hours and meets no active booking. */
  ghost predicate CompactStart(rows: Table, barberId: string, date: int, start: int, end: int, window: int, t: int) {
    && start <= t && t + window <= end
    && (exists id :: id in rows && OccupiesDate(rows[id], barberId, date)
                     && (t == rows[id].timeEnd || t + window == rows[id].timeStart))
    && forall id :: id in rows && OccupiesDate(rows[id], barberId, date) ==> !Meets(rows[id], t, t + window)
  }

  /** Nothing is booked that day, or today the booking that starts last ends before the offer begins. */
  ghost predicate NothingAhead(rows: Table, barberId: string, date: int, now: int, start: int) {
    || (forall id :: id in rows ==> !OccupiesDate(rows[id], barberId, date))
    || (date * DAY <= now < (date + 1) * DAY
        && exists id :: id in rows && OccupiesDate(rows[id], barberId, date) && rows[id].timeEnd < start
                        && forall k :: k in rows && OccupiesDate(rows[k], barberId, date) ==>
                                         rows[k].timeStart <= rows[id].timeStart)
  }

  lemma AdjacentIsPlain(bs: seq<Booking>, rows: Table, barberId: string, date: int, h: Hours, window: int, t: int)
    requires WellKeyed(rows) && Lists(bs, rows, barberId, date, false)
    ensures (Adjacent(bs, t, window) && h.start <= t && t + window <= h.end && Clear(bs, t, t + window))
            <==> CompactStart(rows, barberId, date, h.start, h.end, window, t)
  {
    TouchIsPlain(bs, rows, barberId, date, window, t);
    ClearIsPlain(bs, rows, barberId, date, t, t + window);
  }

  lemma TouchIsPlain(bs: seq<Booking>, rows: Table, barberId: string, date: int, window: int, t: int)
    requires WellKeyed(rows) && Lists(bs, rows, barberId, date, false)
    ensures Adjacent(bs, t, window) <==>
            exists id :: id in rows && OccupiesDate(rows[id], barberId, date)
                         && (t == rows[id].timeEnd || t + window == rows[id].timeStart)
  {
    ListingIsPlain(bs, rows, barberId, date, false);
    if Adjacent(bs, t, window) {
      var i :| 0 <= i < |bs| && (t == bs[i].timeStart - window || t == bs[i].timeEnd);
      assert bs[i] in bs;
      assert OccupiesDate(rows[bs[i].id], barberId, date);
    }
    if id :| id in rows && OccupiesDate(rows[id], barberId, date) && (t == rows[id].timeEnd || t + window == rows[id].timeStart) {
      assert rows[id] in bs;
    }
  }

  lemma ClearIsPlain(bs: seq<Booking>, rows: Table, barberId: string, date: int, t: int, e: int)
    requires WellKeyed(rows) && Lists(bs, rows, barberId, date, false)
    ensures Clear(bs, t, e) <==> forall id :: id in rows && OccupiesDate(rows[id], barberId, date) ==> !Meets(rows[id], t, e)
  {
    ListingIsPlain(bs, rows, barberId, date, false);
    forall id | id in rows && OccupiesDate(rows[id], barberId, date)
      ensures rows[id] in bs
    {
    }
    forall i | 0 <= i < |bs|
      ensures bs[i].id in rows && OccupiesDate(rows[bs[i].id], barberId, date) && rows[bs[i].id] == bs[i]
    {
      assert bs[i] in bs;
    }
  }

  /** On a day whose last booking by start is unique, the two branches are told apart by the table alone. */
  lemma FullGridIsPlain(bs: seq<Booking>, rows: Table, barberId: string, date: int, h: Hours, now: int)
    requires WellKeyed(rows) && UniqueStarts(rows) && Lists(bs, rows, barberId, date, false)
    ensures FullGrid(bs, h, IsToday(date, now)) <==> NothingAhead(rows, barberId, date, now, h.start)
  {
    ListingIsPlain(bs, rows, barberId, date, false);
    DayOfInstant(date, now);
    if bs != [] {
      var last := bs[|bs| - 1];
      assert last in bs;
      assert OccupiesDate(rows[last.id], barberId, date);
      forall k | k in rows && OccupiesDate(rows[k], barberId, date)
        ensures rows[k].timeStart <= last.timeStart
      {
        assert rows[k] in bs;
      }
    } else {
      forall id | id in rows
        ensures !OccupiesDate(rows[id], barberId, date)
      {
        assert rows[id] !in bs;
      }
    }
  }

  /** One start of the compact offer. */
  ghost predicate CompactOffer(rows: Table, barberId: string, date: int, now: int, start: int, end: int, window: int, t: int) {
    if NothingAhead(rows, barberId, date, now, start)
    then start <= t && (t - start) % (30 * MINUTE) == 0 && t + window <= end
    else CompactStart(rows, barberId, date, start, end, window, t)
  }

  lemma CompactStartIsPlain(bs: seq<Booking>, rows: Table, barberId: string, date: int, h: Hours, now: int, window: int, t: int)
    requires WellKeyed(rows) && UniqueStarts(rows) && Lists(bs, rows, barberId, date, false)
    ensures t in CompactStarts(bs, h, IsToday(date, now), SLOT_STEP, window)
            <==> CompactOffer(rows, barberId, date, now, h.start, h.end, window, t)
  {
    FullGridIsPlain(bs, rows, barberId, date, h, now);
    if FullGrid(bs, h, IsToday(date, now)) {
      HalfHourGrid(t, h.start);
    } else {
      AdjacentIsPlain(bs, rows, barberId, date, h, window, t);
    }
  }

  /** The slots are free, as long as the service, in order, and start exactly where `may` allows. */
  ghost predicate Offers(slots: seq<Slot>, window: int, may: iset<int>) {
    && (forall i :: 0 <= i < |slots| ==>
          && slots[i].timeStart in may && slots[i].timeEnd == slots[i].timeStart + window
          && slots[i].status == Free && slots[i].booking.None?)
    && (forall t :: t in may ==> exists i :: 0 <= i < |slots| && slots[i].timeStart == t)
    && (forall i, j :: 0 <= i < j < |slots| ==> slots[i].timeStart < slots[j].timeStart)
  }

  /** What the client may choose, from the table and the schedule row: the ordinary or the compact offer. */
  ghost function ClientStarts(rows: Table, barberId: string, date: int, now: int, start: int, end: int, window: int,
                              compact: bool): iset<int> {
    if compact then iset t | CompactOffer(rows, barberId, date, now, start, end, window, t)
    else iset t | OrdinaryStart(rows, barberId, date, start, end, window, t)
  }

  /** The offer of the day from schedule row i: where it starts, where it ends, and what it holds. */
  ghost predicate ClientDay(slots: seq<Slot>, rows: Table, barberId: string, date: int, days: seq<WorkDay>, i: nat, now: int,
                            window: int, compact: bool)
    requires i < |days|
  {
    exists start :: && OfferFrom(days, date, now, i, start)
                    && Offers(slots, window, ClientStarts(rows, barberId, date, now, start,
                                                          date * DAY + days[i].endMinute * MINUTE, window, compact))
  }

  /** What the two modes offer within the hours, with the listing behind a compact offer. */
  ghost predicate OfferedBy(slots: seq<Slot>, bs: seq<Booking>, rows: Table, barberId: string, date: int,
                            hours: Option<Hours>, now: int, window: int, compact: bool)
  {
    match hours
    case None => slots == []
    case Some(h) =>
      if compact then
        && Lists(bs, rows, barberId, date, false)
        && OffersExactly(slots, CompactStarts(bs, h, IsToday(date, now), SLOT_STEP, window), window)
      else OffersExactly(slots, FreeStarts(rows, barberId, date, h, SLOT_STEP, window), window)
  }

  /** The offer in the mode of the barber's setting; the ghost result is the listing behind a compact one. */
  method OfferedSlots(repo: BookingRepo, barberId: string, date: int, days: seq<WorkDay>, now: int, window: int, compact: bool)
    returns (slots: seq<Slot>, ghost bs: seq<Booking>)
    requires repo.Valid()
    ensures OfferedBy(slots, bs, repo.rows, barberId, date, HoursOn(days, date, now, true, SLOT_STEP), now, window, compact)
  {
    bs := [];
    if compact {
      slots, bs := BuildCompactSlots(repo, barberId, date, days, now, SLOT_STEP, window);
    } else {
      slots := BuildSlots(repo, barberId, date, days, now, true, SLOT_STEP, window);
    }
  }

  /** The listing for clients: a zero duration counts as an hour, the barber's setting picks the mode. */
  method GetFreeSlots(repo: BookingRepo, barberId: string, date: int, days: seq<WorkDay>, now: int,
                      durationMinutes: int, compact: bool)
    returns (slots: seq<Slot>, ghost bs: seq<Booking>)
    requires repo.Valid()
    ensures (forall i :: 0 <= i < |days| ==> days[i].date != date) ==> slots == []
    ensures forall i: nat :: FirstRowAt(days, date, i) && (compact ==> UniqueStarts(repo.rows)) ==>
                               ClientDay(slots, repo.rows, barberId, date, days, i, now,
                                         if durationMinutes == 0 then 60 * MINUTE else durationMinutes * MINUTE, compact)
    ensures OfferedBy(slots, bs, repo.rows, barberId, date, HoursOn(days, date, now, true, SLOT_STEP), now,
                      if durationMinutes == 0 then HOUR else durationMinutes * MINUTE, compact)
  {
    var window := durationMinutes * MINUTE;
    if window == 0 {
      window := HOUR;
    }
    slots, bs := OfferedSlots(repo, barberId, date, days, now, window, compact);
    HoursArePlain(days, date, now, true, SLOT_STEP);
    forall i: nat | FirstRowAt(days, date, i) && (compact ==> UniqueStarts(repo.rows))
      ensures ClientDay(slots, repo.rows, barberId, date, days, i, now, window, compact)
    {
      ClientDayIsPlain(slots, bs, repo.rows, barberId, date, days, i, now, window, compact);
    }
  }

  lemma ClientDayIsPlain(slots: seq<Slot>, bs: seq<Booking>, rows: Table, barberId: string, date: int, days: seq<WorkDay>,
                         i: nat, now: int, window: int, compact: bool)
    requires WellKeyed(rows) && FirstRowAt(days, date, i) && (compact ==> UniqueStarts(rows))
    requires OfferedBy(slots, bs, rows, barberId, date, HoursOn(days, date, now, true, SLOT_STEP), now, window, compact)
    ensures ClientDay(slots, rows, barberId, date, days, i, now, window, compact)
  {
    ClientHours(days, date, now, i);
    OfferIsPlain(slots, bs, rows, barberId, date, HoursOn(days, date, now, true, SLOT_STEP).value, now, window, compact);
  }

  lemma OfferIsPlain(slots: seq<Slot>, bs: seq<Booking>, rows: Table, barberId: string, date: int, h: Hours, now: int,
                     window: int, compact: bool)
    requires WellKeyed(rows)
    requires compact ==> UniqueStarts(rows) && Lists(bs, rows, barberId, date, false)
                         && OffersExactly(slots, CompactStarts(bs, h, IsToday(date, now), SLOT_STEP, window), window)
    requires !compact ==> OffersExactly(slots, FreeStarts(rows, barberId, date, h, SLOT_STEP, window), window)
    ensures Offers(slots, window, ClientStarts(rows, barberId, date, now, h.start, h.end, window, compact))
  {
    var may := ClientStarts(rows, barberId, date, now, h.start, h.end, window, compact);
    var starts := if compact then CompactStarts(bs, h, IsToday(date, now), SLOT_STEP, window)
                  else FreeStarts(rows, barberId, date, h, SLOT_STEP, window);
    forall t
      ensures t in may <==> t in starts
    {
      if compact {
        CompactStartIsPlain(bs, rows, barberId, date, h, now, window, t);
      } else {
        FreeStartIsOrdinary(rows, barberId, date, h, window, t);
      }
    }
  }
}
