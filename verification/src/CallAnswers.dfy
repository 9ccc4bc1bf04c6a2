/**
 What a caller of the booking service sees, in terms of plain columns and literal durations: who is
 turned away and why, which row is stored, and what its event says.
 */
module CallAnswers {
  import opened Wrappers
  import opened Instants
  import opened BookingStore
  import opened BookingService
  import opened BookingSafety
  import opened PlainRows

  /** The event tells what the row holds, and when. */
  predicate Tells(e: Event, b: Booking, at: int) {
    && e.bookingId == b.id && e.barberId == b.barberId
    && e.clientPhone == b.clientPhone && e.clientName == b.clientName
    && e.serviceId == b.serviceId && e.serviceName == b.serviceName && e.price == b.price
    && e.timeStart == b.timeStart && e.timeEnd == b.timeEnd && e.occurredAt == at
    && (e.status == ProtoPending <==> b.status == Pending)
    && (e.status == ProtoCompleted <==> b.status == Completed)
    && (e.status == ProtoCancelled <==> b.status == Cancelled)
    && (e.status == ProtoNoShow <==> b.status == NoShow)
  }

  /** The call stored this row, appended an event for it and answered with it. */
  ghost predicate Stored(st: State, st': State, reply: Reply, b: Booking, at: int) {
    && st'.rows == st.rows[b.id := b] && reply == Done(b)
    && |st'.published| == |st.published| + 1 && st'.published[..|st.published|] == st.published
    && Tells(st'.published[|st.published|], b, at)
  }

  /** The call changed nothing and failed. */
  ghost predicate TurnedAway(st: State, st': State, reply: Reply, error: AppError) {
    st' == st && reply == Failed(error)
  }

  /** Entry i is the first of the list with this id. */
  predicate FirstAt(services: seq<Service>, id: string, i: nat) {
    i < |services| && services[i].id == id && forall j :: 0 <= j < i ==> services[j].id != id
  }

  lemma ChosenIsFirst(services: seq<Service>, id: string, i: nat)
    requires FirstAt(services, id, i)
    ensures FindService(services, id) == Some(services[i])
  {
    var found := FindService(services, id);
    assert services[i].id == id;
    var k :| 0 <= k < |services| && services[k] == found.value && services[k].id == id
             && forall j :: 0 <= j < k ==> services[j].id != id;
    assert i < k || k < i || i == k;
  }

  // ---- create ----

  /** A new booking that fits the barber's day for a phone without a pending one is stored with the
      service's name, price and length; otherwise the client hears that it already exists. */
  lemma CreateAnswers(st: State, req: Request, services: seq<Service>, i: nat, newId: string, now: int)
    requires WellKeyed(st.rows) && DatesAreDays(st.rows) && PositiveSpans(st.rows) && newId !in st.rows
    requires FirstAt(services, req.serviceId, i) && services[i].durationMinutes > 0
    ensures var (st', reply) := Step(st, Create(req, true, Some(services), newId, now));
            var end := req.timeStart + services[i].durationMinutes * MINUTE;
            if (exists id :: id in st.rows && st.rows[id].clientPhone == req.clientPhone && st.rows[id].status == Pending)
               || (exists id :: id in st.rows && OccupiesDayOf(st.rows[id], req.barberId, req.timeStart)
                                && Meets(st.rows[id], req.timeStart, end))
            then TurnedAway(st, st', reply, AppAlreadyExists)
            else
              exists b :: Stored(st, st', reply, b, now)
                          && b.id == newId && b.clientName == req.clientName && b.clientPhone == req.clientPhone
                          && b.barberId == req.barberId && b.serviceId == req.serviceId
                          && b.serviceName == services[i].name && b.price == services[i].price
                          && b.timeStart == req.timeStart && b.timeEnd == end && b.status == Pending
                          && b.date * DAY <= req.timeStart < (b.date + 1) * DAY
  {
    ChosenIsFirst(services, req.serviceId, i);
    var b := NewBooking(req, services[i], newId);
    var (st', reply) := Step(st, Create(req, true, Some(services), newId, now));
    IndexNeverRejectsInsert(st.rows, b);
    DayScanIsPlain(st.rows, b);
    if reply.Done? {
      assert Stored(st, st', reply, b, now);
    }
  }

  /** The insert scan finds exactly the rows that occupy the same time. */
  lemma DayScanIsPlain(rows: Table, b: Booking)
    requires b.date == UtcDay(b.timeStart)
    ensures InsertConflict(rows, b) <==>
            exists id :: id in rows && OccupiesDayOf(rows[id], b.barberId, b.timeStart) && Meets(rows[id], b.timeStart, b.timeEnd)
  {
    forall id | id in rows
      ensures (OnDay(rows[id], b.barberId, b.date) && Overlaps(b.timeStart, b.timeEnd, rows[id].timeStart, rows[id].timeEnd))
              <==> OccupiesDayOf(rows[id], b.barberId, b.timeStart) && Meets(rows[id], b.timeStart, b.timeEnd)
    {
      DayOfInstant(rows[id].date, b.timeStart);
    }
    if InsertConflict(rows, b) {
      var id :| id in rows && OnDay(rows[id], b.barberId, b.date)
                && Overlaps(b.timeStart, b.timeEnd, rows[id].timeStart, rows[id].timeEnd);
      assert OccupiesDayOf(rows[id], b.barberId, b.timeStart) && Meets(rows[id], b.timeStart, b.timeEnd);
    }
    if id :| id in rows && OccupiesDayOf(rows[id], b.barberId, b.timeStart) && Meets(rows[id], b.timeStart, b.timeEnd) {
      assert OnDay(rows[id], b.barberId, b.date);
    }
  }

  /** An id that is taken already stores nothing. */
  lemma TakenIdIsRefused(st: State, req: Request, services: Option<seq<Service>>, newId: string, now: int)
    requires newId in st.rows
    ensures var (st', reply) := Step(st, Create(req, true, services, newId, now));
            st' == st && reply.Failed?
  {
  }

  /** Without the barber or the service nothing is stored. */
  lemma CreateRefusals(st: State, req: Request, barberKnown: bool, services: Option<seq<Service>>, newId: string, now: int)
    ensures var (st', reply) := Step(st, Create(req, barberKnown, services, newId, now));
            && (!barberKnown ==> TurnedAway(st, st', reply, AppNotFound))
            && (barberKnown && services.None? ==> TurnedAway(st, st', reply, AppInternal))
            && (barberKnown && services.Some? && (forall i :: 0 <= i < |services.value| ==> services.value[i].id != req.serviceId) ==>
                  TurnedAway(st, st', reply, AppNotFound))
  {
  }

  // ---- reschedule ----

  /** The reschedule transaction accepts exactly when every other booking of the barber on the target day
      ends before the new time or starts after it; the moved booking's own old time is no obstacle. */
  lemma MovesWhenOthersAreClear(rows: Table, id: string, start: int, end: int)
    requires WellKeyed(rows) && DatesAreDays(rows) && PositiveSpans(rows) && id in rows && start < end
    ensures RescheduleOutcome(rows, id, start, end) == Ok <==>
            forall k :: k in rows && k != id && OccupiesDayOf(rows[k], rows[id].barberId, start) ==>
                          rows[k].timeEnd <= start || end <= rows[k].timeStart
    ensures RescheduleOutcome(rows, id, start, end) in {Ok, SlotConflict}
  {
    IndexNeverRejectsReschedule(rows, id, start, end);
    forall k | k in rows
      ensures OnDay(rows[k], rows[id].barberId, UtcDay(start)) <==> OccupiesDayOf(rows[k], rows[id].barberId, start)
    {
      DayOfInstant(rows[k].date, start);
    }
    if !DayConflict(rows, rows[id].barberId, UtcDay(start), id, start, end) {
      forall k | k in rows && k != id && OccupiesDayOf(rows[k], rows[id].barberId, start)
        ensures rows[k].timeEnd <= start || end <= rows[k].timeStart
      {
        assert OnDay(rows[k], rows[id].barberId, UtcDay(start));
      }
    }
  }

  /** The owner's booking moves when the new time is free of other bookings: start, end, date, service,
      name and price change, the rest of the row stays. */
  lemma RescheduleAnswers(st: State, id: string, serviceId: string, services: seq<Service>, i: nat, start: int, now: int)
    requires WellKeyed(st.rows) && DatesAreDays(st.rows) && PositiveSpans(st.rows) && id in st.rows
    requires FirstAt(services, serviceId, i) && services[i].durationMinutes > 0
    ensures var old_ := st.rows[id];
            var (st', reply) := Step(st, Reschedule(id, old_.barberId, serviceId, start, Some(services), now));
            var end := start + services[i].durationMinutes * MINUTE;
            if exists k :: k in st.rows && k != id && OccupiesDayOf(st.rows[k], old_.barberId, start)
                           && Meets(st.rows[k], start, end)
            then TurnedAway(st, st', reply, AppAlreadyExists)
            else
              exists b :: Stored(st, st', reply, b, now)
                          && b.id == id && b.clientName == old_.clientName && b.clientPhone == old_.clientPhone
                          && b.barberId == old_.barberId && b.status == old_.status
                          && b.serviceId == serviceId && b.serviceName == services[i].name && b.price == services[i].price
                          && b.timeStart == start && b.timeEnd == end
                          && b.date * DAY <= start < (b.date + 1) * DAY
  {
    var row := st.rows[id];
    var end := EndOf(start, services[i]);
    ChosenIsFirst(services, serviceId, i);
    MovesWhenOthersAreClear(st.rows, id, start, end);
    if RescheduleOutcome(st.rows, id, start, end) == Ok {
      MovedRowIsStored(st, id, serviceId, services, i, start, now);
    }
  }

  lemma MovedRowIsStored(st: State, id: string, serviceId: string, services: seq<Service>, i: nat, start: int, now: int)
    requires WellKeyed(st.rows) && id in st.rows && i < |services| && FindService(services, serviceId) == Some(services[i])
    requires RescheduleOutcome(st.rows, id, start, EndOf(start, services[i])) == Ok
    ensures var row := st.rows[id];
            var (st', reply) := Step(st, Reschedule(id, row.barberId, serviceId, start, Some(services), now));
            var b := Rescheduled(row, serviceId, services[i].name, services[i].price, start, EndOf(start, services[i]));
            Stored(st, st', reply, b, now)
  {
  }

  /** A booking of another barber, or none, cannot be moved; an unknown service moves nothing. */
  lemma RescheduleRefusals(st: State, id: string, barberId: string, serviceId: string, start: int,
                           services: Option<seq<Service>>, now: int)
    ensures var (st', reply) := Step(st, Reschedule(id, barberId, serviceId, start, services, now));
            && (id !in st.rows || st.rows[id].barberId != barberId ==> TurnedAway(st, st', reply, AppNotFound))
            && (id in st.rows && st.rows[id].barberId == barberId && services.None? ==>
                  TurnedAway(st, st', reply, AppInternal))
            && (services.Some? && (forall i :: 0 <= i < |services.value| ==> services.value[i].id != serviceId) ==>
                  TurnedAway(st, st', reply, AppNotFound))
  {
  }

  // ---- status ----

  /** The owner may set any status. Only an active booking of the barber with the same start stands in
      the way of an active status; the status a booking already has is answered without a write. */
  lemma StatusAnswers(st: State, id: string, barberId: string, status: Status, now: int)
    requires WellKeyed(st.rows)
    ensures var (st', reply) := Step(st, SetStatus(id, barberId, status, now));
            if id !in st.rows || st.rows[id].barberId != barberId then TurnedAway(st, st', reply, AppNotFound)
            else if st.rows[id].status == status then st' == st && reply == Done(st.rows[id])
            else if status != Cancelled && status != NoShow
                    && exists k :: k in st.rows && k != id && st.rows[k].barberId == barberId
                                   && st.rows[k].timeStart == st.rows[id].timeStart
                                   && st.rows[k].status != Cancelled && st.rows[k].status != NoShow
            then TurnedAway(st, st', reply, AppInternal)
            else Stored(st, st', reply, st.rows[id].(status := status), now)
  {
  }

  /** On tables with different starts, which all reachable ones are, only a cancelled or missed booking
      can be refused an active status. */
  lemma ActiveBookingsTakeAnyStatus(st: State, id: string, status: Status, now: int)
    requires WellKeyed(st.rows) && UniqueStarts(st.rows) && id in st.rows && st.rows[id].status != status
    requires st.rows[id].status != Cancelled && st.rows[id].status != NoShow
    ensures var (st', reply) := Step(st, SetStatus(id, st.rows[id].barberId, status, now));
            Stored(st, st', reply, st.rows[id].(status := status), now)
  {
    StatusAnswers(st, id, st.rows[id].barberId, status, now);
  }

  // ---- delete ----

  /** The owner's booking is removed without an event; other rows stay as they are. */
  lemma DeleteAnswers(st: State, id: string, barberId: string)
    ensures var (st', reply) := Step(st, Delete(id, barberId));
            if id !in st.rows || st.rows[id].barberId != barberId then TurnedAway(st, st', reply, AppNotFound)
            else
              && reply == Deleted && st'.published == st.published && st'.rows.Keys == st.rows.Keys - {id}
              && forall k :: k in st'.rows ==> st'.rows[k] == st.rows[k]
  {
  }
}
