/**
 What every run of the booking service keeps: no double booking on a day, no overlap across dates,
 one pending booking per phone, the date column as the day of the start, distinct starts under a
 unique index that is never needed. Where a run can break it, the exact condition is given.
 */
module BookingSafety {
  import opened Wrappers
  import opened Instants
  import opened BookingStore
  import opened BookingService
  import opened Runs

  predicate DatesAreDays(rows: Table) {
    forall id :: id in rows ==> rows[id].date == UtcDay(rows[id].timeStart)
  }

  predicate PositiveSpans(rows: Table) {
    forall id :: id in rows ==> rows[id].timeStart < rows[id].timeEnd
  }

  ghost predicate Clash(a: Booking, b: Booking) {
    && a.barberId == b.barberId && Active(a.status) && Active(b.status)
    && Overlaps(a.timeStart, a.timeEnd, b.timeStart, b.timeEnd)
  }

  /** Two active bookings of one barber with the same date never overlap. */
  ghost predicate NoDoubleBooking(rows: Table) {
    forall i, j :: i in rows && j in rows && i != j && rows[i].date == rows[j].date ==> !Clash(rows[i], rows[j])
  }

  /** The same without the restriction to one date. */
  ghost predicate NeverOverlapping(rows: Table) {
    forall i, j :: i in rows && j in rows && i != j ==> !Clash(rows[i], rows[j])
  }

  ghost predicate OnePendingPerPhone(rows: Table) {
    forall i, j :: i in rows && j in rows && i != j && rows[i].status == Pending && rows[j].status == Pending ==>
                     rows[i].clientPhone != rows[j].clientPhone
  }

  /** The operation turns a cancelled or missed booking back into one that occupies time. */
  ghost predicate Reactivates(rows: Table, op: Op) {
    && op.SetStatus? && Owned(rows, op.id, op.barberId).Some?
    && !Active(rows[op.id].status) && Active(op.status)
    && SetStatusOutcome(rows, op.id, op.status) == Ok
  }

  /** A reactivation while another active booking of that day overlaps; nothing checks for it. */
  ghost predicate HarmfulReactivation(rows: Table, op: Op) {
    && Reactivates(rows, op)
    && var b := rows[op.id];
       DayConflict(rows, b.barberId, b.date, op.id, b.timeStart, b.timeEnd)
  }

  /** The operation makes a booking pending again that was not. */
  ghost predicate BackToPending(rows: Table, op: Op) {
    && op.SetStatus? && Owned(rows, op.id, op.barberId).Some?
    && rows[op.id].status != Pending && op.status == Pending
    && SetStatusOutcome(rows, op.id, op.status) == Ok
  }

  ghost predicate HarmfulReturn(rows: Table, op: Op) {
    && BackToPending(rows, op)
    && HasPending(rows, rows[op.id].clientPhone)
  }

  ghost predicate PositiveServices(op: Op) {
    match op
    case Create(_, _, Some(svcs), _, _) => forall i :: 0 <= i < |svcs| ==> svcs[i].durationMinutes > 0
    case Reschedule(_, _, _, _, Some(svcs), _) => forall i :: 0 <= i < |svcs| ==> svcs[i].durationMinutes > 0
    case _ => true
  }

  // ---- one step ----

  lemma StepKeepsShape(st: State, op: Op)
    requires WellKeyed(st.rows)
    ensures WellKeyed(After(st, op).rows)
    ensures DatesAreDays(st.rows) ==> DatesAreDays(After(st, op).rows)
    ensures PositiveSpans(st.rows) && PositiveServices(op) ==> PositiveSpans(After(st, op).rows)
  {
  }

  /** Some row other than id, stored under b's date, overlaps b. */
  ghost predicate SameDateClash(rows: Table, id: string, b: Booking) {
    exists k :: k in rows && k != id && rows[k].date == b.date && Clash(b, rows[k])
  }

  /** Writing one row keeps the table free of overlaps exactly when the row meets none. */
  lemma WriteKeepsNoDoubleBooking(rows: Table, id: string, b: Booking)
    requires NoDoubleBooking(rows)
    ensures NoDoubleBooking(rows[id := b]) <==> !SameDateClash(rows, id, b)
  {
    var rows' := rows[id := b];
    if SameDateClash(rows, id, b) {
      var k :| k in rows && k != id && rows[k].date == b.date && Clash(b, rows[k]);
      assert rows'[k] == rows[k] && Clash(rows'[id], rows'[k]);
    } else {
      forall i, j | i in rows' && j in rows' && i != j && rows'[i].date == rows'[j].date
        ensures !Clash(rows'[i], rows'[j])
      {
        if i == id {
          assert !Clash(b, rows[j]);
        } else if j == id {
          assert !Clash(b, rows[i]);
        } else {
          assert !Clash(rows[i], rows[j]);
        }
      }
    }
  }

  /** The scan of the day and the search for a clash are the same question about an active row. */
  lemma ScanFindsClash(rows: Table, id: string, b: Booking)
    ensures SameDateClash(rows, id, b)
            <==> Active(b.status) && DayConflict(rows, b.barberId, b.date, id, b.timeStart, b.timeEnd)
  {
    if SameDateClash(rows, id, b) {
      var k :| k in rows && k != id && rows[k].date == b.date && Clash(b, rows[k]);
      assert OnDay(rows[k], b.barberId, b.date);
    }
    if Active(b.status) && DayConflict(rows, b.barberId, b.date, id, b.timeStart, b.timeEnd) {
      var k :| k in rows && k != id && OnDay(rows[k], b.barberId, b.date)
               && Overlaps(b.timeStart, b.timeEnd, rows[k].timeStart, rows[k].timeEnd);
      assert Clash(b, rows[k]);
    }
  }

  /** A status change that stays active, or leaves the row inactive, meets no one new. */
  lemma StatusChangeMeetsNoOne(rows: Table, id: string, status: Status)
    requires NoDoubleBooking(rows) && id in rows
    requires Active(rows[id].status) || !Active(status)
    ensures !SameDateClash(rows, id, rows[id].(status := status))
  {
    forall k | k in rows && k != id && rows[k].date == rows[id].date
      ensures !Clash(rows[id].(status := status), rows[k])
    {
      assert !Clash(rows[id], rows[k]);
    }
  }

  /** One step keeps the day free of overlaps exactly when it is no harmful reactivation. */
  lemma StepKeepsNoDoubleBooking(st: State, op: Op)
    requires WellKeyed(st.rows) && NoDoubleBooking(st.rows)
    ensures NoDoubleBooking(After(st, op).rows) <==> !HarmfulReactivation(st.rows, op)
  {
    var rows := st.rows;
    if After(st, op).rows != rows && !op.Delete? {
      var id := if op.Create? then op.newId else op.id;
      var b := After(st, op).rows[id];
      assert After(st, op).rows == rows[id := b];
      WriteKeepsNoDoubleBooking(rows, id, b);
      ScanFindsClash(rows, id, b);
      if op.SetStatus? && (Active(rows[id].status) || !Active(op.status)) {
        StatusChangeMeetsNoOne(rows, id, op.status);
      }
    }
  }

  lemma StepKeepsOnePending(st: State, op: Op)
    requires WellKeyed(st.rows) && OnePendingPerPhone(st.rows)
    ensures OnePendingPerPhone(After(st, op).rows) <==> !HarmfulReturn(st.rows, op)
  {
    var rows, rows' := st.rows, After(st, op).rows;
    if HarmfulReturn(rows, op) {
      var k :| k in rows && rows[k].clientPhone == rows[op.id].clientPhone && rows[k].status == Pending;
      assert rows'[k] == rows[k] && k != op.id;
      assert rows'[op.id].status == Pending;
    }
  }

  // ---- whole runs ----

  lemma {:induction false} RunKeepsShape(states: seq<State>, ops: seq<Op>, n: nat)
    requires IsRun(states, ops) && n < |states|
    ensures WellKeyed(states[n].rows)
    ensures DatesAreDays(states[0].rows) ==> DatesAreDays(states[n].rows)
    ensures PositiveSpans(states[0].rows) && (forall i :: 0 <= i < |ops| ==> PositiveServices(ops[i])) ==>
              PositiveSpans(states[n].rows)
  {
    if n == 0 {
    } else {
      RunKeepsShape(states, ops, n - 1);
      StepKeepsShape(states[n - 1], ops[n - 1]);
    }
  }

  /** Over every run, no state is double booked exactly when no reactivation met an occupied interval. */
  lemma NoDoubleBookingOverRuns(states: seq<State>, ops: seq<Op>)
    requires IsRun(states, ops) && NoDoubleBooking(states[0].rows)
    ensures (forall n :: 0 <= n < |states| ==> NoDoubleBooking(states[n].rows))
            <==> (forall i :: 0 <= i < |ops| ==> !HarmfulReactivation(states[i].rows, ops[i]))
  {
    forall i | 0 <= i < |ops| && NoDoubleBooking(states[i].rows)
      ensures NoDoubleBooking(states[i + 1].rows) <==> !HarmfulReactivation(states[i].rows, ops[i])
    {
      RunKeepsShape(states, ops, i);
      StepKeepsNoDoubleBooking(states[i], ops[i]);
    }
    HoldsExactlyWithoutHarm(states, ops, (st: State) => NoDoubleBooking(st.rows),
                            (st: State, op: Op) => HarmfulReactivation(st.rows, op));
  }

  /** Over every run, a phone never has two pending bookings exactly when none is made pending
      again while the phone has another one. */
  lemma OnePendingOverRuns(states: seq<State>, ops: seq<Op>)
    requires IsRun(states, ops) && OnePendingPerPhone(states[0].rows)
    ensures (forall n :: 0 <= n < |states| ==> OnePendingPerPhone(states[n].rows))
            <==> (forall i :: 0 <= i < |ops| ==> !HarmfulReturn(states[i].rows, ops[i]))
  {
    forall i | 0 <= i < |ops| && OnePendingPerPhone(states[i].rows)
      ensures OnePendingPerPhone(states[i + 1].rows) <==> !HarmfulReturn(states[i].rows, ops[i])
    {
      RunKeepsShape(states, ops, i);
      StepKeepsOnePending(states[i], ops[i]);
    }
    HoldsExactlyWithoutHarm(states, ops, (st: State) => OnePendingPerPhone(st.rows),
                            (st: State, op: Op) => HarmfulReturn(st.rows, op));
  }

  // ---- across midnight ----

  /** An active booking of the barber stored under another date overlaps b; no scan looks there. */
  ghost predicate OtherDayConflict(rows: Table, b: Booking) {
    exists id :: id in rows && id != b.id && rows[id].date != b.date && Clash(b, rows[id])
  }

  /** Some other booking, under whatever date, overlaps b. */
  ghost predicate MeetsAny(rows: Table, b: Booking) {
    exists id :: id in rows && id != b.id && Clash(b, rows[id])
  }

  /** The operation is accepted although it meets a booking that nothing looks at: one under another
      date for a new or moved booking, any at all for a reactivated one. */
  ghost predicate UnseenConflict(rows: Table, op: Op) {
    match Accepted(rows, op)
    case None => false
    case Some(b) => if op.SetStatus? then Reactivates(rows, op) && MeetsAny(rows, b) else OtherDayConflict(rows, b)
  }

  lemma WriteKeepsNeverOverlapping(rows: Table, b: Booking)
    requires NeverOverlapping(rows)
    ensures NeverOverlapping(rows[b.id := b]) <==> !MeetsAny(rows, b)
  {
    var rows' := rows[b.id := b];
    if MeetsAny(rows, b) {
      var id :| id in rows && id != b.id && Clash(b, rows[id]);
      assert rows'[id] == rows[id] && Clash(rows'[b.id], rows'[id]);
    } else {
      forall i, j | i in rows' && j in rows' && i != j
        ensures !Clash(rows'[i], rows'[j])
      {
        if i == b.id {
          assert !Clash(b, rows[j]);
        } else if j == b.id {
          assert !Clash(b, rows[i]);
        } else {
          assert !Clash(rows[i], rows[j]);
        }
      }
    }
  }

  /** A row that passed its scan of one date can only meet rows under other dates. */
  lemma ScannedRowMeets(rows: Table, b: Booking)
    requires !DayConflict(rows, b.barberId, b.date, b.id, b.timeStart, b.timeEnd)
    ensures MeetsAny(rows, b) <==> OtherDayConflict(rows, b)
  {
    ScanFindsClash(rows, b.id, b);
    if MeetsAny(rows, b) {
      var id :| id in rows && id != b.id && Clash(b, rows[id]);
      assert rows[id].date == b.date ==> SameDateClash(rows, b.id, b);
    }
  }

  /** The scans of the create and reschedule transactions cover the day of the row they write. */
  lemma AcceptedPassedScan(rows: Table, op: Op)
    requires WellKeyed(rows) && !op.SetStatus? && Accepted(rows, op).Some?
    ensures var b := Accepted(rows, op).value;
            !DayConflict(rows, b.barberId, b.date, b.id, b.timeStart, b.timeEnd)
  {
    var b := Accepted(rows, op).value;
    if DayConflict(rows, b.barberId, b.date, b.id, b.timeStart, b.timeEnd) {
      assert op.Create? ==> InsertConflict(rows, b);
    }
  }

  /** One step keeps all bookings of every barber disjoint exactly when it meets no unseen one. */
  lemma StepKeepsNeverOverlapping(st: State, op: Op)
    requires WellKeyed(st.rows) && NeverOverlapping(st.rows)
    ensures NeverOverlapping(After(st, op).rows) <==> !UnseenConflict(st.rows, op)
  {
    var rows := st.rows;
    StepStoresAccepted(st, op);
    if Accepted(rows, op).Some? {
      var b := Accepted(rows, op).value;
      WriteKeepsNeverOverlapping(rows, b);
      if !op.SetStatus? {
        AcceptedPassedScan(rows, op);
        ScannedRowMeets(rows, b);
      } else if !Reactivates(rows, op) {
        forall id | id in rows && id != b.id
          ensures !Clash(b, rows[id])
        {
          assert !Clash(rows[op.id], rows[id]);
        }
      }
    }
  }

  /** Over every run, a barber's bookings never overlap, across dates too, exactly when no operation
      was accepted against a booking that nothing looks at. */
  lemma NeverOverlappingOverRuns(states: seq<State>, ops: seq<Op>)
    requires IsRun(states, ops) && NeverOverlapping(states[0].rows)
    ensures (forall n :: 0 <= n < |states| ==> NeverOverlapping(states[n].rows))
            <==> (forall i :: 0 <= i < |ops| ==> !UnseenConflict(states[i].rows, ops[i]))
  {
    forall i | 0 <= i < |ops| && NeverOverlapping(states[i].rows)
      ensures NeverOverlapping(states[i + 1].rows) <==> !UnseenConflict(states[i].rows, ops[i])
    {
      RunKeepsShape(states, ops, i);
      StepKeepsNeverOverlapping(states[i], ops[i]);
    }
    HoldsExactlyWithoutHarm(states, ops, (st: State) => NeverOverlapping(st.rows),
                            (st: State, op: Op) => UnseenConflict(st.rows, op));
  }

  // ---- the unique index ----

  /** After the scans have passed, only a reused id is left for the table to reject. */
  lemma IndexNeverRejectsInsert(rows: Table, b: Booking)
    requires DatesAreDays(rows) && PositiveSpans(rows)
    requires b.date == UtcDay(b.timeStart) && b.timeStart < b.timeEnd
    ensures CreateOutcome(rows, b) == ConstraintViolation ==> b.id in rows
    ensures b.id !in rows && !HasPending(rows, b.clientPhone) && !InsertConflict(rows, b) ==>
              CreateOutcome(rows, b) == Ok
  {
    if IndexClash(rows, b) {
      var id :| id in rows && id != b.id && rows[id].barberId == b.barberId
                && rows[id].timeStart == b.timeStart && Active(rows[id].status);
      assert OnDay(rows[id], b.barberId, b.date);
      assert InsertConflict(rows, b);
    }
  }

  lemma IndexNeverRejectsReschedule(rows: Table, id: string, start: int, end: int)
    requires WellKeyed(rows) && DatesAreDays(rows) && PositiveSpans(rows)
    requires start < end
    ensures RescheduleOutcome(rows, id, start, end) != ConstraintViolation
  {
    if id in rows && IndexClash(rows, rows[id].(timeStart := start)) {
      var k :| k in rows && k != id && rows[k].barberId == rows[id].barberId
               && rows[k].timeStart == start && Active(rows[k].status);
      assert OnDay(rows[k], rows[id].barberId, UtcDay(start));
      assert DayConflict(rows, rows[id].barberId, UtcDay(start), id, start, end);
    }
  }

  /** Every step, reactivations included, leaves a barber's active starts distinct. */
  lemma StepKeepsUniqueStarts(st: State, op: Op)
    requires WellKeyed(st.rows) && UniqueStarts(st.rows)
    ensures UniqueStarts(After(st, op).rows)
  {
    StepStoresAccepted(st, op);
    if Accepted(st.rows, op).Some? {
      var b := Accepted(st.rows, op).value;
      AcceptedPassedIndex(st.rows, op);
      IndexGuardsUniqueness(st.rows, b);
    }
  }

  lemma AcceptedPassedIndex(rows: Table, op: Op)
    requires WellKeyed(rows) && Accepted(rows, op).Some?
    ensures !IndexClash(rows, Accepted(rows, op).value)
  {
    if op.Reschedule? {
      var b := Accepted(rows, op).value;
      var moved := rows[op.id].(timeStart := op.timeStart);
      assert b.id == moved.id && b.barberId == moved.barberId && b.timeStart == moved.timeStart && b.status == moved.status;
    }
  }

  /** In every state of every run a barber's active bookings start at different instants. */
  lemma {:induction false} StartsStayUnique(states: seq<State>, ops: seq<Op>, n: nat)
    requires IsRun(states, ops) && n < |states| && UniqueStarts(states[0].rows)
    ensures UniqueStarts(states[n].rows)
  {
    if n == 0 {
    } else {
      StartsStayUnique(states, ops, n - 1);
      RunKeepsShape(states, ops, n - 1);
      StepKeepsUniqueStarts(states[n - 1], ops[n - 1]);
      assert states[n - 1 + 1] == After(states[n - 1], ops[n - 1]);
    }
  }

  /** If no active booking runs past the UTC midnight after its start, disjoint days are enough. */
  lemma DisjointDaysSuffice(rows: Table)
    requires DatesAreDays(rows) && NoDoubleBooking(rows)
    requires forall id :: id in rows && Active(rows[id].status) ==> rows[id].timeEnd <= (rows[id].date + 1) * DAY
    ensures NeverOverlapping(rows)
  {
    forall i, j | i in rows && j in rows && i != j
      ensures !Clash(rows[i], rows[j])
    {
      if Active(rows[i].status) && Active(rows[j].status) {
        DatesKeepApart(rows[i], rows[j]);
        DatesKeepApart(rows[j], rows[i]);
      }
    }
  }

  lemma DatesKeepApart(a: Booking, b: Booking)
    requires a.date == UtcDay(a.timeStart) && b.date == UtcDay(b.timeStart)
    requires a.timeEnd <= (a.date + 1) * DAY
    ensures a.date < b.date ==> a.timeEnd <= b.timeStart
  {
    assert b.timeStart >= b.date * DAY;
  }

  /** An accepted booking keeps all of the barber's bookings disjoint exactly when no row under
      another date overlaps it. */
  lemma AcceptedAcrossDays(rows: Table, b: Booking)
    requires WellKeyed(rows) && NeverOverlapping(rows)
    requires CreateOutcome(rows, b) == Ok
    ensures NeverOverlapping(rows[b.id := b]) <==> !OtherDayConflict(rows, b)
  {
    assert !InsertConflict(rows, b);
    WriteKeepsNeverOverlapping(rows, b);
    ScannedRowMeets(rows, b);
  }

  /** From a state with positive spans, no new or moved booking of a run with positive service durations
      is turned away by the unique index, whatever was reactivated before. */
  lemma RunNeedsNoIndex(states: seq<State>, ops: seq<Op>, n: nat, svc: Service)
    requires IsRun(states, ops) && n < |ops|
    requires DatesAreDays(states[0].rows) && PositiveSpans(states[0].rows)
    requires forall i :: 0 <= i < |ops| ==> PositiveServices(ops[i])
    requires svc.durationMinutes > 0
    ensures ops[n].Create? && ops[n].newId !in states[n].rows ==>
              CreateOutcome(states[n].rows, NewBooking(ops[n].req, svc, ops[n].newId)) != ConstraintViolation
    ensures ops[n].Reschedule? ==>
              RescheduleOutcome(states[n].rows, ops[n].id, ops[n].timeStart, EndOf(ops[n].timeStart, svc))
              != ConstraintViolation
  {
    RunKeepsShape(states, ops, n);
    if ops[n].Create? {
      IndexNeverRejectsInsert(states[n].rows, NewBooking(ops[n].req, svc, ops[n].newId));
    } else if ops[n].Reschedule? {
      IndexNeverRejectsReschedule(states[n].rows, ops[n].id, ops[n].timeStart, EndOf(ops[n].timeStart, svc));
    }
  }

  // ---- inputs on which the unguarded statements fail ----

  function SampleRequest(phone: string, start: int): Request {
    Request("n", phone, "b", "s", start)
  }

  function SampleCreate(id: string, phone: string, start: int, minutes: int): Op {
    Create(SampleRequest(phone, start), true, Some([Service("s", "cut", 1, minutes)]), id, 0)
  }

  const EMPTY: State := State(map[], [])

  /** Book 10:00-11:00, cancel it, book 10:30-11:30, reactivate the first: both are active. */
  lemma ReactivationDoubleBooks()
    ensures exists ops: seq<Op>, states: seq<State> ::
              IsRun(states, ops) && states[0] == EMPTY && !NoDoubleBooking(states[|ops|].rows)
  {
    var book, cancel, rebook, complete :=
      SampleCreate("1", "p", 10 * HOUR, 60), SetStatus("1", "b", Cancelled, 0),
      SampleCreate("2", "q", 10 * HOUR + 30 * MINUTE, 60), SetStatus("1", "b", Completed, 0);
    BookedAndCancelled(10 * HOUR);
    RebookedAndCompleted(After(After(EMPTY, book), cancel));
    FourSteps(EMPTY, book, cancel, rebook, complete);
  }

  lemma FourSteps(st: State, a: Op, b: Op, c: Op, d: Op)
    requires WellKeyed(st.rows)
    ensures exists ops: seq<Op>, states: seq<State> ::
              IsRun(states, ops) && states[0] == st && states[|ops|] == After(After(After(After(st, a), b), c), d)
  {
    var s1 := After(st, a);
    var s2 := After(s1, b);
    var s3 := After(s2, c);
    var ops, states := [a, b, c, d], [st, s1, s2, s3, After(s3, d)];
    assert IsRun(states, ops);
  }

  /** Book, cancel, book again with the same phone, set the first back to pending: both are pending. */
  lemma PendingTwice()
    ensures exists ops: seq<Op>, states: seq<State> ::
              IsRun(states, ops) && states[0] == EMPTY && !OnePendingPerPhone(states[|ops|].rows)
  {
    var book, cancel, rebook, restore :=
      SampleCreate("1", "p", 10 * HOUR, 60), SetStatus("1", "b", Cancelled, 0),
      SampleCreate("2", "p", 12 * HOUR, 60), SetStatus("1", "b", Pending, 0);
    BookedAndCancelled(10 * HOUR);
    RebookedAndRestored(After(After(EMPTY, book), cancel));
    FourSteps(EMPTY, book, cancel, rebook, restore);
  }

  lemma RebookedAndRestored(st: State)
    requires st.rows.Keys == {"1"}
    requires st.rows["1"] == NewBooking(SampleRequest("p", 10 * HOUR), Service("s", "cut", 1, 60), "1").(status := Cancelled)
    ensures var s3 := After(st, SampleCreate("2", "p", 12 * HOUR, 60));
            !OnePendingPerPhone(After(s3, SetStatus("1", "b", Pending, 0)).rows)
  {
    var s3 := After(st, SampleCreate("2", "p", 12 * HOUR, 60));
    assert s3.rows.Keys == {"1", "2"};
    var s4 := After(s3, SetStatus("1", "b", Pending, 0));
    assert s4.rows.Keys == {"1", "2"};
    assert s4.rows["1"].status == Pending && s4.rows["2"].status == Pending;
    assert s4.rows["1"].clientPhone == s4.rows["2"].clientPhone;
  }

  lemma RebookedAndCompleted(st: State)
    requires st.rows.Keys == {"1"}
    requires st.rows["1"] == NewBooking(SampleRequest("p", 10 * HOUR), Service("s", "cut", 1, 60), "1").(status := Cancelled)
    ensures var s3 := After(st, SampleCreate("2", "q", 10 * HOUR + 30 * MINUTE, 60));
            !NoDoubleBooking(After(s3, SetStatus("1", "b", Completed, 0)).rows)
  {
    var s3 := After(st, SampleCreate("2", "q", 10 * HOUR + 30 * MINUTE, 60));
    assert s3.rows.Keys == {"1", "2"};
    var s4 := After(s3, SetStatus("1", "b", Completed, 0));
    assert s4.rows.Keys == {"1", "2"};
    assert Clash(s4.rows["1"], s4.rows["2"]);
    assert s4.rows["1"].date == s4.rows["2"].date;
  }

  lemma BookedAndCancelled(start: int)
    ensures var book := SampleCreate("1", "p", start, 60);
            var s2 := After(After(EMPTY, book), SetStatus("1", "b", Cancelled, 0));
            && s2.rows.Keys == {"1"}
            && s2.rows["1"] ==
               NewBooking(SampleRequest("p", start), Service("s", "cut", 1, 60), "1").(status := Cancelled)
  {
    var s1 := After(EMPTY, SampleCreate("1", "p", start, 60));
    assert s1.rows.Keys == {"1"};
  }

  /** 23:30-00:30 and 00:00-00:30 of the next day are both accepted. */
  lemma MidnightOverlapIsAccepted()
    ensures exists ops: seq<Op>, states: seq<State> ::
              && IsRun(states, ops) && states[0] == EMPTY
              && NoDoubleBooking(states[|ops|].rows) && !NeverOverlapping(states[|ops|].rows)
  {
    var ops := [SampleCreate("1", "p", DAY - 30 * MINUTE, 60), SampleCreate("2", "q", DAY, 30)];
    var s1 := After(EMPTY, ops[0]);
    assert s1.rows.Keys == {"1"};
    var s2 := After(s1, ops[1]);
    assert s2.rows.Keys == {"1", "2"};
    assert Clash(s2.rows["1"], s2.rows["2"]);
    assert IsRun([EMPTY, s1, s2], ops);
  }

  /** 23:30-00:30 stands; a booking at two in the morning is moved to 00:00-00:30 and accepted. */
  lemma MovedIntoMidnightBooking()
    ensures exists ops: seq<Op>, states: seq<State> ::
              && IsRun(states, ops) && states[0] == EMPTY
              && NoDoubleBooking(states[|ops|].rows) && !NeverOverlapping(states[|ops|].rows)
              && ops[|ops| - 1].Reschedule? && NeverOverlapping(states[|ops| - 1].rows)
  {
    var late, early := SampleCreate("1", "p", DAY - 30 * MINUTE, 60), SampleCreate("2", "q", DAY + 2 * HOUR, 30);
    var move := Reschedule("2", "b", "s", DAY, Some([Service("s", "cut", 1, 30)]), 0);
    var s1 := After(EMPTY, late);
    var s2 := After(s1, early);
    BookedAroundMidnight();
    MovedToMidnight(s2);
    assert IsRun([EMPTY, s1, s2, After(s2, move)], [late, early, move]);
  }

  lemma BookedAroundMidnight()
    ensures var s2 := After(After(EMPTY, SampleCreate("1", "p", DAY - 30 * MINUTE, 60)),
                            SampleCreate("2", "q", DAY + 2 * HOUR, 30));
            && s2.rows.Keys == {"1", "2"}
            && s2.rows["1"] == NewBooking(SampleRequest("p", DAY - 30 * MINUTE), Service("s", "cut", 1, 60), "1")
            && s2.rows["2"] == NewBooking(SampleRequest("q", DAY + 2 * HOUR), Service("s", "cut", 1, 30), "2")
  {
    var s1 := After(EMPTY, SampleCreate("1", "p", DAY - 30 * MINUTE, 60));
    assert s1.rows.Keys == {"1"};
  }

  lemma MovedToMidnight(st: State)
    requires st.rows.Keys == {"1", "2"}
    requires st.rows["1"] == NewBooking(SampleRequest("p", DAY - 30 * MINUTE), Service("s", "cut", 1, 60), "1")
    requires st.rows["2"] == NewBooking(SampleRequest("q", DAY + 2 * HOUR), Service("s", "cut", 1, 30), "2")
    ensures var st' := After(st, Reschedule("2", "b", "s", DAY, Some([Service("s", "cut", 1, 30)]), 0));
            NeverOverlapping(st.rows) && NoDoubleBooking(st'.rows) && !NeverOverlapping(st'.rows)
  {
    var st' := After(st, Reschedule("2", "b", "s", DAY, Some([Service("s", "cut", 1, 30)]), 0));
    assert st'.rows.Keys == {"1", "2"};
    assert Clash(st'.rows["1"], st'.rows["2"]);
  }
}
