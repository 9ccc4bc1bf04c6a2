/**
 Whole runs in compact mode: a day that starts empty and is filled only from its current compact
 offers stays free of gaps exactly while no offer is taken that was made after its last booking,
 whatever else the service does meanwhile.
 */
module CompactRuns {
  import opened Wrappers
  import opened Instants
  import opened BookingStore
  import opened BookingService
  import opened BookingSafety
  import opened SlotEngine
  import opened OfferedIsBookable
  import opened CompactDays
  import opened Runs

  // What the client saw: the schedule, the clock and the day listing behind the offer, and the service.
  datatype Offer = Offer(days: seq<WorkDay>, now: int, bs: seq<Booking>, svc: Service)

  function WindowOf(svc: Service): int {
    svc.durationMinutes * MINUTE
  }

  /** t is a start of the compact offer computed from the present table. */
  ghost predicate InOffer(rows: Table, barberId: string, date: int, o: Offer, t: int) {
    && o.svc.durationMinutes > 0
    && DayHours(o.days) && HoursOn(o.days, date, o.now, true, SLOT_STEP).Some?
    && Lists(o.bs, rows, barberId, date, false)
    && t in CompactStarts(o.bs, HoursOn(o.days, date, o.now, true, SLOT_STEP).value, IsToday(date, o.now), SLOT_STEP,
                          WindowOf(o.svc))
  }

  /** The offer was the full grid although the day has bookings: today, after the last of them. */
  predicate IsLate(o: Offer, date: int) {
    && HoursOn(o.days, date, o.now, true, SLOT_STEP).Some?
    && o.bs != [] && FullGrid(o.bs, HoursOn(o.days, date, o.now, true, SLOT_STEP).value, IsToday(date, o.now))
  }

  /** The operation books such a start, for the service the offer was made for. */
  ghost predicate TakesOffer(st: State, op: Op, barberId: string, date: int, o: Offer) {
    && op.Create? && op.req.barberId == barberId
    && op.services.Some? && FindService(op.services.value, op.req.serviceId) == Some(o.svc)
    && InOffer(st.rows, barberId, date, o, op.req.timeStart)
  }

  ghost predicate CompactStep(st: State, op: Op, barberId: string, date: int) {
    LeavesDay(st, op, barberId, date) || exists o :: TakesOffer(st, op, barberId, date, o)
  }

  ghost predicate LeavesDay(st: State, op: Op, barberId: string, date: int) {
    DaySpans(After(st, op).rows, barberId, date) == DaySpans(st.rows, barberId, date)
  }

  /** The operation adds to the day a booking from such a late offer. */
  ghost predicate LateOffer(st: State, op: Op, barberId: string, date: int) {
    && !LeavesDay(st, op, barberId, date)
    && exists o :: TakesOffer(st, op, barberId, date, o) && IsLate(o, date)
  }

  /** Every operation books from the compact offer of this day or does not change its busy spans. */
  ghost predicate CompactRun(states: seq<State>, ops: seq<Op>, barberId: string, date: int) {
    && IsRun(states, ops) && DaySpans(states[0].rows, barberId, date) == map[]
    && forall i :: 0 <= i < |ops| ==> CompactStep(states[i], ops[i], barberId, date)
  }

  /** The day's spans are disjoint and form at most one block. */
  ghost predicate OneBlock(rows: Table, barberId: string, date: int) {
    && Disjoint(DaySpans(rows, barberId, date))
    && |Heads(DaySpans(rows, barberId, date))| <= 1
  }

  lemma DisjointSpansDay(rows: Table, barberId: string, date: int)
    requires Disjoint(DaySpans(rows, barberId, date))
    ensures DayDisjoint(rows, barberId, date)
  {
    var m := DaySpans(rows, barberId, date);
    forall i | i in rows && OnDay(rows[i], barberId, date)
      ensures rows[i].timeStart < rows[i].timeEnd
    {
      assert i in m;
    }
    forall i, j | i in rows && j in rows && i != j && OnDay(rows[i], barberId, date) && OnDay(rows[j], barberId, date)
      ensures !Clash(rows[i], rows[j])
    {
      assert i in m && j in m;
    }
  }

  lemma NoListingNoSpans(bs: seq<Booking>, rows: Table, barberId: string, date: int)
    requires Lists(bs, rows, barberId, date, false) && bs == []
    ensures Heads(DaySpans(rows, barberId, date)) == {}
  {
    ListingCoversDay(bs, rows, barberId, date, 0);
  }

  lemma CreateEffect(st: State, op: Op, svc: Service)
    requires op.Create? && op.services.Some?
    requires FindService(op.services.value, op.req.serviceId) == Some(svc)
    ensures var b := NewBooking(op.req, svc, op.newId);
            After(st, op).rows ==
            if op.barberKnown && CreateOutcome(st.rows, b) == Ok then st.rows[b.id := b] else st.rows
  {
  }

  lemma AcceptedOfferBlocks(rows: Table, barberId: string, date: int, o: Offer, b: Booking)
    requires WellKeyed(rows) && Disjoint(DaySpans(rows, barberId, date)) && InOffer(rows, barberId, date, o, b.timeStart)
    requires Requests(b, barberId, b.timeStart, WindowOf(o.svc)) && CreateOutcome(rows, b) == Ok && b.status == Pending
    ensures var m, m' := DaySpans(rows, barberId, date), DaySpans(rows[b.id := b], barberId, date);
            && Disjoint(m')
            && |Heads(m')| <= |Heads(m)| + (if o.bs == [] || IsLate(o, date) then 1 else 0)
            && (IsLate(o, date) ==> |Heads(m')| == |Heads(m)| + 1)
  {
    DisjointSpansDay(rows, barberId, date);
    CompactSlotBlocks(rows, barberId, date, o.days, o.now, o.bs, WindowOf(o.svc), b.timeStart, b);
  }

  /** On a day that is one block or empty, an accepted compact slot leaves one block exactly when its
      offer was not late. */
  lemma AcceptedOfferKeepsBlock(rows: Table, barberId: string, date: int, o: Offer, b: Booking)
    requires WellKeyed(rows) && OneBlock(rows, barberId, date) && InOffer(rows, barberId, date, o, b.timeStart)
    requires Requests(b, barberId, b.timeStart, WindowOf(o.svc)) && CreateOutcome(rows, b) == Ok && b.status == Pending
    ensures OneBlock(rows[b.id := b], barberId, date) <==> !IsLate(o, date)
  {
    AcceptedOfferBlocks(rows, barberId, date, o, b);
    if o.bs == [] {
      NoListingNoSpans(o.bs, rows, barberId, date);
    } else {
      ListedDayHasHead(rows, barberId, date, o.bs);
    }
  }

  lemma ListedDayHasHead(rows: Table, barberId: string, date: int, bs: seq<Booking>)
    requires Lists(bs, rows, barberId, date, false) && bs != [] && Disjoint(DaySpans(rows, barberId, date))
    ensures |Heads(DaySpans(rows, barberId, date))| >= 1
  {
    FirstListedIsHead(rows, barberId, date, bs);
    assert bs[0].id in Heads(DaySpans(rows, barberId, date));
  }

  /** An operation that takes an offer and changes the day stores a booking as long as the service. */
  lemma TakenOfferIsStored(st: State, op: Op, barberId: string, date: int, o: Offer)
    requires TakesOffer(st, op, barberId, date, o) && !LeavesDay(st, op, barberId, date)
    ensures var b := NewBooking(op.req, o.svc, op.newId);
            && CreateOutcome(st.rows, b) == Ok && After(st, op).rows == st.rows[b.id := b]
            && Requests(b, barberId, b.timeStart, WindowOf(o.svc)) && b.timeStart == op.req.timeStart && b.status == Pending
  {
    CreateEffect(st, op, o.svc);
  }

  /** A fresh booking request for an offered compact slot is answered with the stored booking,
      unless its phone already has a pending one. */
  lemma {:induction false} TakenOfferIsBooked(st: State, op: Op, barberId: string, date: int, o: Offer)
    requires Sound(st.rows) && TakesOffer(st, op, barberId, date, o)
    requires op.barberKnown && op.newId !in st.rows
    ensures Step(st, op).1 ==
            if HasPending(st.rows, op.req.clientPhone) then Failed(AppAlreadyExists)
            else Done(NewBooking(op.req, o.svc, op.newId))
  {
    var b := NewBooking(op.req, o.svc, op.newId);
    CompactOfferIsBookable(st.rows, barberId, date, o.days, o.now, o.bs, WindowOf(o.svc), op.req.timeStart, b);
  }

  /** One step of a compact run keeps the day in one block exactly when it takes no late offer. */
  lemma StepKeepsBlock(st: State, op: Op, barberId: string, date: int)
    requires WellKeyed(st.rows) && OneBlock(st.rows, barberId, date) && CompactStep(st, op, barberId, date)
    ensures OneBlock(After(st, op).rows, barberId, date) <==> !LateOffer(st, op, barberId, date)
  {
    if !LeavesDay(st, op, barberId, date) {
      var o :| TakesOffer(st, op, barberId, date, o) && (LateOffer(st, op, barberId, date) ==> IsLate(o, date));
      TakenOfferIsStored(st, op, barberId, date, o);
      AcceptedOfferKeepsBlock(st.rows, barberId, date, o, NewBooking(op.req, o.svc, op.newId));
    }
  }

  lemma StepKeepsDisjoint(st: State, op: Op, barberId: string, date: int)
    requires WellKeyed(st.rows) && Disjoint(DaySpans(st.rows, barberId, date)) && CompactStep(st, op, barberId, date)
    ensures Disjoint(DaySpans(After(st, op).rows, barberId, date))
  {
    if !LeavesDay(st, op, barberId, date) {
      var o :| TakesOffer(st, op, barberId, date, o);
      TakenOfferIsStored(st, op, barberId, date, o);
      AcceptedOfferBlocks(st.rows, barberId, date, o, NewBooking(op.req, o.svc, op.newId));
    }
  }

  lemma {:induction false} RunKeepsDisjoint(states: seq<State>, ops: seq<Op>, barberId: string, date: int, n: nat)
    requires CompactRun(states, ops, barberId, date) && n < |states|
    ensures Disjoint(DaySpans(states[n].rows, barberId, date))
  {
    if n == 0 {
    } else {
      RunKeepsDisjoint(states, ops, barberId, date, n - 1);
      RunKeepsShape(states, ops, n - 1);
      StepKeepsDisjoint(states[n - 1], ops[n - 1], barberId, date);
      assert states[n - 1 + 1] == After(states[n - 1], ops[n - 1]);
    }
  }

  /** The steps of a compact run meet the condition under which single steps decide over the run. */
  lemma StepsDecide(states: seq<State>, ops: seq<Op>, barberId: string, date: int)
    requires CompactRun(states, ops, barberId, date)
    ensures OneBlock(states[0].rows, barberId, date)
    ensures forall i :: 0 <= i < |ops| && OneBlock(states[i].rows, barberId, date) ==>
                          (OneBlock(states[i + 1].rows, barberId, date) <==> !LateOffer(states[i], ops[i], barberId, date))
  {
    assert Heads(DaySpans(states[0].rows, barberId, date)) == {};
    forall i | 0 <= i < |ops| && OneBlock(states[i].rows, barberId, date)
      ensures OneBlock(states[i + 1].rows, barberId, date) <==> !LateOffer(states[i], ops[i], barberId, date)
    {
      RunKeepsShape(states, ops, i);
      StepKeepsBlock(states[i], ops[i], barberId, date);
    }
  }

  /** A day filled from its compact offers never has an idle instant between bookings exactly when no
      booking was taken from an offer made after the last booking of the day. */
  lemma {:induction false} GapFreeExactly(states: seq<State>, ops: seq<Op>, barberId: string, date: int)
    requires CompactRun(states, ops, barberId, date)
    ensures (forall n :: 0 <= n < |states| ==> GapFree(DaySpans(states[n].rows, barberId, date)))
            <==> (forall i :: 0 <= i < |ops| ==> !LateOffer(states[i], ops[i], barberId, date))
  {
    StepsDecide(states, ops, barberId, date);
    HoldsExactlyWithoutHarm(states, ops, (st: State) => OneBlock(st.rows, barberId, date),
                            (st: State, op: Op) => LateOffer(st, op, barberId, date));
    forall n | 0 <= n < |states|
      ensures GapFree(DaySpans(states[n].rows, barberId, date)) <==> OneBlock(states[n].rows, barberId, date)
    {
      RunKeepsDisjoint(states, ops, barberId, date, n);
      OneBlockIsGapFree(DaySpans(states[n].rows, barberId, date));
    }
  }

  /** Up to the first late offer the day has no idle instant between bookings, and its listing by start
      time is a chain in which each booking ends where the next one starts. */
  lemma CompactStaysCompact(states: seq<State>, ops: seq<Op>, barberId: string, date: int, n: nat,
                            bs: seq<Booking>)
    requires CompactRun(states, ops, barberId, date) && n < |states|
    requires forall i :: 0 <= i < n ==> !LateOffer(states[i], ops[i], barberId, date)
    requires Lists(bs, states[n].rows, barberId, date, false)
    ensures GapFree(DaySpans(states[n].rows, barberId, date))
    ensures forall i :: 0 <= i < |bs| - 1 ==> bs[i].timeEnd == bs[i + 1].timeStart
  {
    StepsDecide(states, ops, barberId, date);
    HarmlessRun(states, ops, (st: State) => OneBlock(st.rows, barberId, date),
                (st: State, op: Op) => LateOffer(st, op, barberId, date), n);
    OneBlockIsGapFree(DaySpans(states[n].rows, barberId, date));
    OneBlockIsChained(states[n].rows, barberId, date, bs);
  }

  // Today at ten o'clock, with hours from nine to eight and one visit that is over at ten.
  const LATE_DATE: int := 1
  const LATE_NOW: int := DAY + 10 * HOUR
  const LATE_DAYS: seq<WorkDay> := [WorkDay(LATE_DATE, 9 * 60, 20 * 60)]
  const LATE_VISIT: Booking := NewBooking(SampleRequest("p", DAY + 9 * HOUR), Service("s", "cut", 1, 60), "1")
  const LATE_START: int := DAY + 13 * HOUR

  /** The full grid of today opens a second block: one o'clock is offered and booked, after a pause of
      three hours. */
  lemma LateOfferOpensBlock()
    ensures exists ops: seq<Op>, states: seq<State> ::
              && IsRun(states, ops) && |ops| == 2 && states[0] == EMPTY
              && Lists([LATE_VISIT], states[1].rows, "b", LATE_DATE, false)
              && LATE_START in CompactStarts([LATE_VISIT], HoursOn(LATE_DAYS, LATE_DATE, LATE_NOW, true, SLOT_STEP).value,
                                             true, SLOT_STEP, HOUR)
              && |Heads(DaySpans(states[1].rows, "b", LATE_DATE))| == 1
              && |Heads(DaySpans(states[2].rows, "b", LATE_DATE))| == 2
  {
    var first, second := SampleCreate("1", "p", DAY + 9 * HOUR, 60), SampleCreate("2", "q", LATE_START, 60);
    var s1 := After(EMPTY, first);
    var s2 := After(s1, second);
    var b := NewBooking(second.req, Service("s", "cut", 1, 60), "2");
    assert IsRun([EMPTY, s1, s2], [first, second]);
    assert s1.rows == map["1" := LATE_VISIT];
    assert s2.rows == s1.rows[b.id := b];
    LateBookingOpensBlock(b);
  }

  lemma LateBookingOpensBlock(b: Booking)
    requires b == NewBooking(SampleRequest("q", LATE_START), Service("s", "cut", 1, 60), "2")
    ensures var rows, bs := map["1" := LATE_VISIT], [LATE_VISIT];
            && Lists(bs, rows, "b", LATE_DATE, false)
            && LATE_START in CompactStarts(bs, HoursOn(LATE_DAYS, LATE_DATE, LATE_NOW, true, SLOT_STEP).value,
                                           true, SLOT_STEP, HOUR)
            && |Heads(DaySpans(rows, "b", LATE_DATE))| == 1
            && |Heads(DaySpans(rows[b.id := b], "b", LATE_DATE))| == 2
  {
    var rows, bs := map["1" := LATE_VISIT], [LATE_VISIT];
    LateStartIsOffered();
    assert Lists(bs, rows, "b", LATE_DATE, false);
    assert Heads(DaySpans(rows, "b", LATE_DATE)) == {"1"};
    CompactSlotBlocks(rows, "b", LATE_DATE, LATE_DAYS, LATE_NOW, bs, HOUR, LATE_START, b);
  }

  lemma LateStartIsOffered()
    ensures HoursOn(LATE_DAYS, LATE_DATE, LATE_NOW, true, SLOT_STEP) == Some(Hours(LATE_START, DAY + 20 * HOUR))
    ensures var h := Hours(LATE_START, DAY + 20 * HOUR);
            FullGrid([LATE_VISIT], h, true) && LATE_START in CompactStarts([LATE_VISIT], h, true, SLOT_STEP, HOUR)
    ensures IsToday(LATE_DATE, LATE_NOW)
  {
    assert LATE_START == GridPoint(LATE_START, 2 * SLOT_STEP, 0);
    assert OnGrid(LATE_START, LATE_START, 2 * SLOT_STEP);
  }
}
