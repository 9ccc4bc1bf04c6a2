/**
 The analytics copy of the bookings. Events come from the booking service, may be late, repeated
 and out of order; the store keeps every inserted row and reads the newest version per booking.
 */
module AnalyticsReplica {
  import opened Wrappers
  import opened Instants
  import opened BookingStore
  import opened BookingService
  import opened BookingSafety
  import opened Retry

  // A stored row. Its time columns hold whole seconds.
  datatype Row = Row(
    bookingId: string,
    barberId: string,
    clientPhone: string,
    clientName: string,
    serviceId: string,
    serviceName: string,
    price: int,
    startTime: int,
    endTime: int,
    status: Status,
    occurredAt: int)

  function Seconds(t: int): int {
    t / SECOND
  }

  function StatusFromProto(p: ProtoStatus): Status {
    match p
    case ProtoPending => Pending
    case ProtoCompleted => Completed
    case ProtoCancelled => Cancelled
    case ProtoNoShow => NoShow
    case ProtoUnspecified => Pending
  }

  function ToRow(e: Event): Row {
    Row(e.bookingId, e.barberId, e.clientPhone, e.clientName, e.serviceId, e.serviceName, e.price,
        Seconds(e.timeStart), Seconds(e.timeEnd), StatusFromProto(e.status), Seconds(e.occurredAt))
  }

  /** The version a query with FINAL reads: the greatest occurred_at, the last inserted of equals. */
  function Latest(store: seq<Row>, id: string): Option<Row> {
    if store == [] then None
    else
      var prev := Latest(store[..|store| - 1], id);
      var row := store[|store| - 1];
      if row.bookingId == id && (prev.None? || row.occurredAt >= prev.value.occurredAt) then Some(row) else prev
  }

  class AnalyticsStore {
    var rows: seq<Row>

    constructor ()
      ensures rows == []
    {
      rows := [];
    }

    method InsertBooking(row: Row)
      modifies this
      ensures rows == old(rows) + [row]
    {
      rows := rows + [row];
    }
  }

  /** One delivery of one message. Only a successful insert commits the message; otherwise it stays
      to be delivered again. */
  method Consume(store: AnalyticsStore, e: Event, attempts: seq<Attempt>, cancelledAt: nat)
    returns (committed: bool, failures: nat, waited: int, ghost copies: nat)
    requires |attempts| == MAX_RETRIES
    modifies store
    ensures store.rows == old(store.rows) + seq(copies, _ => ToRow(e))
    ensures Retried(attempts, cancelledAt, committed, failures, waited, copies)
    ensures committed ==> copies >= 1
  {
    var row := ToRow(e);
    var wait := RETRY_BASE_WAIT;
    failures, waited, copies := 0, 0, 0;
    while failures < MAX_RETRIES
      invariant failures <= MAX_RETRIES
      invariant wait == RETRY_BASE_WAIT * Pow2(failures) && waited == wait - RETRY_BASE_WAIT
      invariant store.rows == old(store.rows) + seq(copies, _ => row)
      invariant forall i :: 0 <= i < failures ==> attempts[i] != Succeeds
      invariant copies == Effects(attempts[..failures])
    {
      var a := attempts[failures];
      assert attempts[..failures + 1][..failures] == attempts[..failures];
      if a != FailsBefore {
        store.InsertBooking(row);
        copies := copies + 1;
      }
      if a == Succeeds {
        SuccessTookEffect(attempts, cancelledAt, failures, waited, copies);
        return true, failures, waited, copies;
      }
      if failures + 1 == cancelledAt {
        return false, failures, waited, copies;
      }
      waited := waited + wait;
      wait := wait * 2;
      failures := failures + 1;
    }
    assert attempts[..failures] == attempts;
    committed := false;
  }

  // ---- what was published ----

  /** The last event published for a booking. */
  function LastEvent(log: seq<Event>, id: string): Option<Event> {
    if log == [] then None
    else if log[|log| - 1].bookingId == id then Some(log[|log| - 1])
    else LastEvent(log[..|log| - 1], id)
  }

  /** The last event published for the booking has the content of b. */
  predicate LogReflects(log: seq<Event>, id: string, b: Booking) {
    LastEvent(log, id).Some? && LastEvent(log, id).value == EventOf(b, LastEvent(log, id).value.occurredAt)
  }

  /** Every stored booking equals the content of the last event published for it. */
  ghost predicate LogReflectsRows(st: State) {
    forall id :: id in st.rows ==> LogReflects(st.published, id, st.rows[id])
  }

  lemma AppendEvent(log: seq<Event>, e: Event, id: string)
    ensures LastEvent(log + [e], id) == if e.bookingId == id then Some(e) else LastEvent(log, id)
  {
    assert (log + [e])[..|log|] == log;
  }

  /** The operation stored one row and published exactly that row. */
  ghost predicate Publishes(st: State, st': State, b: Booking, at: int) {
    st'.rows == st.rows[b.id := b] && st'.published == st.published + [EventOf(b, at)]
  }

  /** A step publishes the one row it stored, or publishes nothing and at most drops rows. */
  lemma StepPublishesRow(st: State, op: Op)
    requires WellKeyed(st.rows)
    ensures (exists b, at :: Publishes(st, After(st, op), b, at))
            || (After(st, op).published == st.published
                && forall id :: id in After(st, op).rows ==> id in st.rows && After(st, op).rows[id] == st.rows[id])
  {
    var st' := After(st, op);
    if st'.published != st.published {
      var e := st'.published[|st.published|];
      assert Publishes(st, st', st'.rows[e.bookingId], e.occurredAt);
    }
  }

  lemma PublishingKeepsLog(st: State, st': State, b: Booking, at: int)
    requires WellKeyed(st.rows) && LogReflectsRows(st) && Publishes(st, st', b, at)
    ensures WellKeyed(st'.rows) && LogReflectsRows(st')
  {
    forall id | id in st'.rows {
      AppendEvent(st.published, EventOf(b, at), id);
    }
  }

  lemma StepKeepsLog(st: State, op: Op)
    requires WellKeyed(st.rows) && LogReflectsRows(st)
    ensures WellKeyed(After(st, op).rows) && LogReflectsRows(After(st, op))
  {
    var st' := After(st, op);
    StepPublishesRow(st, op);
    if b, at :| Publishes(st, st', b, at) {
      PublishingKeepsLog(st, st', b, at);
    }
  }

  lemma {:induction false} RunKeepsLog(states: seq<State>, ops: seq<Op>, n: nat)
    requires IsRun(states, ops) && n < |states| && LogReflectsRows(states[0])
    ensures WellKeyed(states[n].rows) && LogReflectsRows(states[n])
  {
    if n == 0 {
    } else {
      RunKeepsLog(states, ops, n - 1);
      StepKeepsLog(states[n - 1], ops[n - 1]);
      assert states[n - 1 + 1] == After(states[n - 1], ops[n - 1]);
    }
  }

  // ---- delivery in any order, any number of times ----

  /** The store's rows for the booking are its published events, each at least once. */
  ghost predicate Delivered(log: seq<Event>, store: seq<Row>, id: string) {
    && (forall i :: 0 <= i < |store| && store[i].bookingId == id ==>
          exists j :: 0 <= j < |log| && log[j].bookingId == id && store[i] == ToRow(log[j]))
    && (forall j :: 0 <= j < |log| && log[j].bookingId == id ==> ToRow(log[j]) in store)
  }

  /** Among the booking's events, any other content is at least a second older than the last one. */
  predicate LastIsNewest(log: seq<Event>, id: string)
    requires LastEvent(log, id).Some?
  {
    var last := LastEvent(log, id).value;
    forall j :: 0 <= j < |log| && log[j].bookingId == id ==>
                  ToRow(log[j]) == ToRow(last) || Seconds(log[j].occurredAt) < Seconds(last.occurredAt)
  }

  lemma {:induction false} LastEventIsPublished(log: seq<Event>, id: string) returns (j: nat)
    requires LastEvent(log, id).Some?
    ensures j < |log| && log[j] == LastEvent(log, id).value && log[j].bookingId == id
  {
    if log[|log| - 1].bookingId == id {
      j := |log| - 1;
    } else {
      j := LastEventIsPublished(log[..|log| - 1], id);
    }
  }

  /** FINAL returns a stored row of the booking that none of its rows is newer than. */
  lemma {:induction false} LatestIsNewest(store: seq<Row>, id: string)
    ensures Latest(store, id).Some? ==> Latest(store, id).value in store && Latest(store, id).value.bookingId == id
    ensures forall i :: 0 <= i < |store| && store[i].bookingId == id ==>
                          Latest(store, id).Some? && store[i].occurredAt <= Latest(store, id).value.occurredAt
  {
    if store == [] {
    } else {
      var rest := store[..|store| - 1];
      LatestIsNewest(rest, id);
      forall i | 0 <= i < |store| && store[i].bookingId == id
        ensures Latest(store, id).Some? && store[i].occurredAt <= Latest(store, id).value.occurredAt
      {
        if i < |rest| {
          assert rest[i] == store[i];
        }
      }
    }
  }

  lemma Converges(log: seq<Event>, store: seq<Row>, id: string)
    requires LastEvent(log, id).Some? && LastIsNewest(log, id) && Delivered(log, store, id)
    ensures Latest(store, id) == Some(ToRow(LastEvent(log, id).value))
  {
    var last := LastEventIsPublished(log, id);
    LatestIsNewest(store, id);
    assert ToRow(log[last]) in store;
    var i :| 0 <= i < |store| && store[i] == ToRow(log[last]);
    var row := Latest(store, id).value;
    var k :| 0 <= k < |store| && store[k] == row;
    var j :| 0 <= j < |log| && log[j].bookingId == id && store[k] == ToRow(log[j]);
  }

  function Rows(log: seq<Event>): seq<Row> {
    seq(|log|, i requires 0 <= i < |log| => ToRow(log[i]))
  }

  /** If some event with other content is not older, delivering it once more at the end hides the last one. */
  lemma StaleRedelivery(log: seq<Event>, id: string) returns (store: seq<Row>)
    requires LastEvent(log, id).Some? && !LastIsNewest(log, id)
    ensures Delivered(log, store, id) && Latest(store, id) != Some(ToRow(LastEvent(log, id).value))
  {
    var last := LastEvent(log, id).value;
    var j :| 0 <= j < |log| && log[j].bookingId == id
             && ToRow(log[j]) != ToRow(last) && Seconds(log[j].occurredAt) >= Seconds(last.occurredAt);
    var all := Rows(log);
    store := all + [ToRow(log[j])];
    forall k | 0 <= k < |log| && log[k].bookingId == id
      ensures ToRow(log[k]) in store
    {
      assert store[k] == ToRow(log[k]);
    }
    forall i | 0 <= i < |store| && store[i].bookingId == id
      ensures exists k :: 0 <= k < |log| && log[k].bookingId == id && store[i] == ToRow(log[k])
    {
      var k := if i < |log| then i else j;
      assert store[i] == ToRow(log[k]);
    }
    assert store[..|store| - 1] == all;
  }

  /** For a booking's log, every order, repetition and delay of deliveries leads to the last event
      exactly when nothing different was published in the same second or later. */
  lemma ConvergesExactly(log: seq<Event>, id: string)
    requires LastEvent(log, id).Some?
    ensures (forall store :: Delivered(log, store, id) ==> Latest(store, id) == Some(ToRow(LastEvent(log, id).value)))
            <==> LastIsNewest(log, id)
  {
    if LastIsNewest(log, id) {
      forall store | Delivered(log, store, id)
        ensures Latest(store, id) == Some(ToRow(LastEvent(log, id).value))
      {
        Converges(log, store, id);
      }
    } else {
      var store := StaleRedelivery(log, id);
    }
  }

  /** Booked and completed in one second: if the first event is delivered last, analytics reads pending. */
  lemma SameSecondHidesChange()
    ensures exists ops: seq<Op>, states: seq<State>, store ::
              && IsRun(states, ops) && states[0] == EMPTY
              && var st := states[|ops|];
                 && "1" in st.rows && st.rows["1"].status == Completed
                 && Delivered(st.published, store, "1")
                 && Latest(store, "1").Some? && Latest(store, "1").value.status == Pending
  {
    var book, complete := SampleCreate("1", "p", 10 * HOUR, 60), SetStatus("1", "b", Completed, 0);
    var s1 := After(EMPTY, book);
    var s2 := After(s1, complete);
    assert IsRun([EMPTY, s1, s2], [book, complete]);
    var e0, e1 := EventOf(s1.rows["1"], 0), EventOf(s2.rows["1"], 0);
    assert s2.published == [e0, e1];
    ReorderedPair(e0, e1);
  }

  /** Two events of one second, delivered in the other order: the first one wins. */
  lemma ReorderedPair(e0: Event, e1: Event)
    requires e0.bookingId == e1.bookingId && Seconds(e0.occurredAt) == Seconds(e1.occurredAt)
    ensures var store := [ToRow(e1), ToRow(e0)];
            Delivered([e0, e1], store, e0.bookingId) && Latest(store, e0.bookingId) == Some(ToRow(e0))
  {
    var log, store := [e0, e1], [ToRow(e1), ToRow(e0)];
    assert store[..1] == [ToRow(e1)] && store[..1][..0] == [];
    assert store[0] == ToRow(log[1]) && store[1] == ToRow(log[0]);
    assert Latest(store[..1], e0.bookingId) == Some(ToRow(e1));
  }

  /** The booking as analytics keeps it. */
  function Mirror(b: Booking, occurredAt: int): Row {
    Row(b.id, b.barberId, b.clientPhone, b.clientName, b.serviceId, b.serviceName, b.price,
        Seconds(b.timeStart), Seconds(b.timeEnd), if b.status.OtherStatus? then Pending else b.status, occurredAt)
  }

  /** In every state of every run, once all events of a booking have arrived, what analytics reads for
      it is the booking's row, provided its last change is the newest by the second. */
  lemma ReplicaMirrorsBooking(states: seq<State>, ops: seq<Op>, n: nat, id: string, store: seq<Row>)
    requires IsRun(states, ops) && n < |states| && LogReflectsRows(states[0])
    requires id in states[n].rows
    requires LastEvent(states[n].published, id).Some? ==> LastIsNewest(states[n].published, id)
    requires Delivered(states[n].published, store, id)
    ensures Latest(store, id).Some?
    ensures Latest(store, id).value == Mirror(states[n].rows[id], Latest(store, id).value.occurredAt)
    ensures Latest(store, id).value.status == states[n].rows[id].status <==> !states[n].rows[id].status.OtherStatus?
  {
    RunKeepsLog(states, ops, n);
    MirrorsReflectedRow(states[n].published, states[n].rows[id], id, store);
  }

  /** When the last event has the content of the row, the store ends at the row. */
  lemma MirrorsReflectedRow(log: seq<Event>, b: Booking, id: string, store: seq<Row>)
    requires LogReflects(log, id, b) && LastIsNewest(log, id) && Delivered(log, store, id)
    ensures Latest(store, id).Some?
    ensures Latest(store, id).value == Mirror(b, Latest(store, id).value.occurredAt)
    ensures Latest(store, id).value.status == b.status <==> !b.status.OtherStatus?
  {
    Converges(log, store, id);
  }

  /** Strictly increasing seconds are enough. */
  lemma {:induction false} IncreasingSecondsSuffice(log: seq<Event>, id: string)
    requires LastEvent(log, id).Some?
    requires forall i, j :: 0 <= i < j < |log| && log[i].bookingId == id && log[j].bookingId == id ==>
                              Seconds(log[i].occurredAt) < Seconds(log[j].occurredAt)
    ensures LastIsNewest(log, id)
  {
    LaterEvents(log, id);
  }

  /** No event of the booking comes after its last one. */
  lemma {:induction false} LaterEvents(log: seq<Event>, id: string)
    requires LastEvent(log, id).Some?
    ensures exists k :: 0 <= k < |log| && log[k] == LastEvent(log, id).value && log[k].bookingId == id
                        && forall j :: k < j < |log| ==> log[j].bookingId != id
  {
    if log[|log| - 1].bookingId == id {
      assert log[|log| - 1] == LastEvent(log, id).value;
    } else {
      var rest := log[..|log| - 1];
      LaterEvents(rest, id);
      var k :| 0 <= k < |rest| && rest[k] == LastEvent(rest, id).value && rest[k].bookingId == id
               && forall j :: k < j < |rest| ==> rest[j].bookingId != id;
      assert log[k] == rest[k];
      forall j | k < j < |log|
        ensures log[j].bookingId != id
      {
        assert j < |rest| ==> log[j] == rest[j];
      }
    }
  }
}
