/**
 The two halves meet: what the listings offer is what the create transaction accepts.
 */
module OfferedIsBookable {
  import opened Wrappers
  import opened Instants
  import opened BookingStore
  import opened BookingService
  import opened BookingSafety
  import opened SlotEngine

  /** The invariant of every run without harmful reactivations. */
  ghost predicate Sound(rows: Table) {
    WellKeyed(rows) && DatesAreDays(rows) && PositiveSpans(rows) && NoDoubleBooking(rows)
  }

  /** Runs with positive durations start sound and stay sound exactly when nothing is reactivated into an
      occupied interval. */
  lemma SoundOverRuns(states: seq<State>, ops: seq<Op>)
    requires IsRun(states, ops) && Sound(states[0].rows)
    requires forall i :: 0 <= i < |ops| ==> PositiveServices(ops[i])
    ensures (forall n :: 0 <= n < |states| ==> Sound(states[n].rows))
            <==> (forall i :: 0 <= i < |ops| ==> !HarmfulReactivation(states[i].rows, ops[i]))
  {
    NoDoubleBookingOverRuns(states, ops);
    forall n | 0 <= n < |states|
      ensures Sound(states[n].rows) <==> NoDoubleBooking(states[n].rows)
    {
      RunKeepsShape(states, ops, n);
    }
  }

  /** The active bookings of one day are non-empty intervals that do not overlap. */
  ghost predicate DayDisjoint(rows: Table, barberId: string, date: int) {
    && (forall i :: i in rows && OnDay(rows[i], barberId, date) ==> rows[i].timeStart < rows[i].timeEnd)
    && (forall i, j :: i in rows && j in rows && i != j ==>
          !(OnDay(rows[i], barberId, date) && OnDay(rows[j], barberId, date) && Clash(rows[i], rows[j])))
  }

  /** The schedule row of the day lies between midnight and midnight. */
  predicate DayHours(days: seq<WorkDay>) {
    forall i :: 0 <= i < |days| ==> 0 <= days[i].startMinute && days[i].endMinute <= 24 * 60
  }

  /** Every start that fits the hours of a day belongs to that UTC day. */
  lemma FittingStartIsOnDay(days: seq<WorkDay>, date: int, now: int, clampToday: bool, t: int, window: int)
    requires DayHours(days) && window > 0
    requires HoursOn(days, date, now, clampToday, SLOT_STEP).Some?
    requires var h := HoursOn(days, date, now, clampToday, SLOT_STEP).value; h.start <= t && t + window <= h.end
    ensures UtcDay(t) == date
  {
    FirstDayIsFirst(days, date);
    SlotStepRoundsUp(now + 3 * HOUR);
    var h := HoursOn(days, date, now, clampToday, SLOT_STEP).value;
    assert date * DAY <= h.start;
    assert h.end <= date * DAY + DAY;
  }

  /** On a day without overlaps the last listed booking is also the last to end. */
  lemma LastListedEndsLast(bs: seq<Booking>, rows: Table, barberId: string, date: int)
    requires DayDisjoint(rows, barberId, date) && Lists(bs, rows, barberId, date, false) && bs != []
    ensures forall i :: 0 <= i < |bs| ==> bs[i].timeEnd <= bs[|bs| - 1].timeEnd
  {
    var last := bs[|bs| - 1];
    forall i | 0 <= i < |bs| - 1
      ensures bs[i].timeEnd <= last.timeEnd
    {
      assert bs[i].id != last.id && bs[i].timeStart <= last.timeStart;
      assert !Clash(rows[bs[i].id], rows[last.id]);
    }
  }

  /** Every compact start is clear of the whole day, also on the branch that tests no conflict. */
  lemma CompactStartIsClear(bs: seq<Booking>, rows: Table, barberId: string, date: int,
                            h: Hours, today: bool, step: int, window: int, t: int)
    requires DayDisjoint(rows, barberId, date) && Lists(bs, rows, barberId, date, false) && step > 0
    requires t in CompactStarts(bs, h, today, step, window)
    ensures Clear(bs, t, t + window) && h.start <= t && t + window <= h.end
  {
    if FullGrid(bs, h, today) {
      BeforeOrigin(h.start, 2 * step);
      if bs != [] {
        LastListedEndsLast(bs, rows, barberId, date);
      }
    }
  }

  /** What the create transaction answers for a start that no active booking of its day overlaps. */
  lemma ClearStartIsAccepted(rows: Table, b: Booking)
    requires Sound(rows) && b.id !in rows
    requires b.date == UtcDay(b.timeStart) && b.timeStart < b.timeEnd
    requires !Taken(rows, b.barberId, b.date, false, b.timeStart, b.timeEnd)
    ensures CreateOutcome(rows, b) == if HasPending(rows, b.clientPhone) then ActiveBookingExists else Ok
  {
    IndexNeverRejectsInsert(rows, b);
  }

  /** The fields of the request for a slot: this barber, this start, a service as long as the window. */
  predicate Requests(b: Booking, barberId: string, t: int, window: int) {
    b.barberId == barberId && b.timeStart == t && b.timeEnd == t + window && b.date == UtcDay(t)
  }

  /** Every compact slot is accepted for a phone without a pending booking. */
  lemma CompactOfferIsBookable(rows: Table, barberId: string, date: int, days: seq<WorkDay>, now: int,
                               bs: seq<Booking>, window: int, t: int, b: Booking)
    requires Sound(rows) && Lists(bs, rows, barberId, date, false)
    requires DayHours(days) && window > 0
    requires HoursOn(days, date, now, true, SLOT_STEP).Some?
    requires t in CompactStarts(bs, HoursOn(days, date, now, true, SLOT_STEP).value, IsToday(date, now), SLOT_STEP, window)
    requires Requests(b, barberId, t, window) && b.id !in rows
    ensures CreateOutcome(rows, b) == if HasPending(rows, b.clientPhone) then ActiveBookingExists else Ok
  {
    var h := HoursOn(days, date, now, true, SLOT_STEP).value;
    CompactStartIsClear(bs, rows, barberId, date, h, IsToday(date, now), SLOT_STEP, window, t);
    FittingStartIsOnDay(days, date, now, true, t, window);
    ScanDecides(bs, rows, barberId, date, false, t, t + window);
    ClearStartIsAccepted(rows, b);
  }

  /** An active booking that is not pending: the ordinary list does not look at it. */
  ghost predicate HiddenConflict(rows: Table, barberId: string, date: int, t: int, e: int) {
    exists id :: id in rows && OnDay(rows[id], barberId, date) && rows[id].status != Pending
                 && Overlaps(t, e, rows[id].timeStart, rows[id].timeEnd)
  }

  lemma TakenIsPendingOrHidden(rows: Table, barberId: string, date: int, t: int, e: int)
    ensures Taken(rows, barberId, date, false, t, e) ==>
              Taken(rows, barberId, date, true, t, e) || HiddenConflict(rows, barberId, date, t, e)
  {
    if id :| id in rows && Listed(rows[id], barberId, date, false) && Overlaps(t, e, rows[id].timeStart, rows[id].timeEnd)
               && rows[id].status == Pending {
      assert Listed(rows[id], barberId, date, true);
    }
  }

  /** An ordinary slot is turned away as taken exactly when a non-pending active booking overlaps it. */
  lemma OrdinaryOfferOutcome(rows: Table, barberId: string, date: int, days: seq<WorkDay>, now: int,
                             window: int, t: int, b: Booking)
    requires Sound(rows) && DayHours(days) && window > 0
    requires HoursOn(days, date, now, true, SLOT_STEP).Some?
    requires t in FreeStarts(rows, barberId, date, HoursOn(days, date, now, true, SLOT_STEP).value, SLOT_STEP, window)
    requires Requests(b, barberId, t, window) && b.id !in rows
    ensures CreateOutcome(rows, b) ==
            if HasPending(rows, b.clientPhone) then ActiveBookingExists
            else if HiddenConflict(rows, barberId, date, t, t + window) then SlotConflict
            else Ok
  {
    var h := HoursOn(days, date, now, true, SLOT_STEP).value;
    BeforeOrigin(h.start, 2 * SLOT_STEP);
    FittingStartIsOnDay(days, date, now, true, t, window);
    if HiddenConflict(rows, barberId, date, t, t + window) {
      assert InsertConflict(rows, b);
    } else {
      TakenIsPendingOrHidden(rows, barberId, date, t, t + window);
      ClearStartIsAccepted(rows, b);
    }
  }

  /** When every active booking of the day is pending, every ordinary slot is accepted. */
  lemma OrdinaryOfferIsBookable(rows: Table, barberId: string, date: int, days: seq<WorkDay>, now: int,
                                window: int, t: int, b: Booking)
    requires Sound(rows) && DayHours(days) && window > 0
    requires HoursOn(days, date, now, true, SLOT_STEP).Some?
    requires t in FreeStarts(rows, barberId, date, HoursOn(days, date, now, true, SLOT_STEP).value, SLOT_STEP, window)
    requires Requests(b, barberId, t, window) && b.id !in rows
    requires forall id :: id in rows && OnDay(rows[id], barberId, date) ==> rows[id].status == Pending
    ensures CreateOutcome(rows, b) == if HasPending(rows, b.clientPhone) then ActiveBookingExists else Ok
  {
    OrdinaryOfferOutcome(rows, barberId, date, days, now, window, t, b);
  }

  const VISIT_DATE: int := 1
  const VISIT_START: int := DAY + 10 * HOUR
  const VISIT_DAYS: seq<WorkDay> := [WorkDay(VISIT_DATE, 10 * 60, 12 * 60)]
  const COMPLETED_VISIT: Table :=
    map["1" := Booking("1", "n", "p", "b", "s", "cut", 1, VISIT_DATE, VISIT_START, VISIT_START + HOUR, Completed)]

  /** Booking a visit and completing it leads to this table. */
  lemma CompletedVisitIsReached()
    ensures exists ops: seq<Op>, states: seq<State> ::
              IsRun(states, ops) && states[0] == EMPTY && states[|ops|].rows == COMPLETED_VISIT
  {
    var ops := [SampleCreate("1", "p", VISIT_START, 60), SetStatus("1", "b", Completed, 0)];
    var s1 := After(EMPTY, ops[0]);
    var s2 := After(s1, ops[1]);
    assert s1.rows.Keys == {"1"};
    assert s2.rows == COMPLETED_VISIT;
    assert IsRun([EMPTY, s1, s2], ops);
  }

  /** The completed visit still occupies 10:00-11:00, yet the ordinary list offers 10:00 again. */
  lemma CompletedVisitIsOfferedAgain(h: Hours)
    requires Some(h) == HoursOn(VISIT_DAYS, VISIT_DATE, 0, true, SLOT_STEP)
    ensures Sound(COMPLETED_VISIT)
    ensures VISIT_START in FreeStarts(COMPLETED_VISIT, "b", VISIT_DATE, h, SLOT_STEP, HOUR)
    ensures HiddenConflict(COMPLETED_VISIT, "b", VISIT_DATE, VISIT_START, VISIT_START + HOUR)
  {
    assert h == Hours(VISIT_START, DAY + 12 * HOUR);
    assert VISIT_START == GridPoint(h.start, 2 * SLOT_STEP, 0);
    assert OnGrid(VISIT_START, h.start, 2 * SLOT_STEP);
    assert OnDay(COMPLETED_VISIT["1"], "b", VISIT_DATE);
  }
}
