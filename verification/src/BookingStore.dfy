/**
 The bookings table and the transactions of the booking repository. Each transaction is one
 atomic step. The outcome functions say what a transaction answers in terms of the whole
 table; the methods reach the same answer by scanning rows.
 */
module BookingStore {
  import opened Instants

  // `OtherStatus` stands for any text in the status column that the service does not name.
  datatype Status = Pending | Completed | Cancelled | NoShow | OtherStatus(name: string)

  predicate Active(s: Status) {
    s != Cancelled && s != NoShow
  }

  datatype Booking = Booking(
    id: string,
    clientName: string,
    clientPhone: string,
    barberId: string,
    serviceId: string,
    serviceName: string,
    price: int,
    date: int,
    timeStart: int,
    timeEnd: int,
    status: Status)

  type Table = map<string, Booking>

  datatype Outcome =
    | Ok
    | NotFound
    | ActiveBookingExists
    | SlotConflict
    | ConstraintViolation

  /** The overlap test written in every scan: [s0, e0) against [s1, e1). */
  predicate Overlaps(s0: int, e0: int, s1: int, e1: int) {
    s0 < e1 && e0 > s1
  }

  predicate WellKeyed(rows: Table) {
    forall id :: id in rows ==> rows[id].id == id
  }

  /** The rows a conflict scan reads: active, of this barber, with this value of the date column. */
  predicate OnDay(b: Booking, barberId: string, date: int) {
    b.barberId == barberId && b.date == date && Active(b.status)
  }

  /** The unique index on (barber_id, time_start) over active rows would reject b beside the others. */
  ghost predicate IndexClash(rows: Table, b: Booking) {
    && Active(b.status)
    && exists id :: id in rows && id != b.id && rows[id].barberId == b.barberId
                    && rows[id].timeStart == b.timeStart && Active(rows[id].status)
  }

  /** No barber has two active rows with the same start. */
  ghost predicate UniqueStarts(rows: Table) {
    forall i, j :: i in rows && j in rows && i != j && Active(rows[i].status) && Active(rows[j].status) ==>
                     rows[i].barberId != rows[j].barberId || rows[i].timeStart != rows[j].timeStart
  }

  /** The index rejects exactly the rows that would break the uniqueness it stands for. */
  lemma IndexGuardsUniqueness(rows: Table, b: Booking)
    requires UniqueStarts(rows)
    ensures UniqueStarts(rows[b.id := b]) <==> !IndexClash(rows, b)
  {
    var rows' := rows[b.id := b];
    if IndexClash(rows, b) {
      var id :| id in rows && id != b.id && rows[id].barberId == b.barberId
                && rows[id].timeStart == b.timeStart && Active(rows[id].status);
      assert rows'[id] == rows[id] && rows'[b.id] == b;
    }
  }

  ghost predicate HasPending(rows: Table, phone: string) {
    exists id :: id in rows && rows[id].clientPhone == phone && rows[id].status == Pending
  }

  /** Some active row on that day, other than `except`, overlaps [start, end). */
  ghost predicate DayConflict(rows: Table, barberId: string, date: int, except: string, start: int, end: int) {
    exists id :: id in rows && id != except && OnDay(rows[id], barberId, date)
                 && Overlaps(start, end, rows[id].timeStart, rows[id].timeEnd)
  }

  /** The insert scan has no row to leave out, so it also sees a row that already carries the new id. */
  ghost predicate InsertConflict(rows: Table, b: Booking) {
    exists id :: id in rows && OnDay(rows[id], b.barberId, b.date)
                 && Overlaps(b.timeStart, b.timeEnd, rows[id].timeStart, rows[id].timeEnd)
  }

  ghost function CreateOutcome(rows: Table, b: Booking): Outcome {
    if HasPending(rows, b.clientPhone) then ActiveBookingExists
    else if InsertConflict(rows, b) then SlotConflict
    else if b.id in rows || IndexClash(rows, b) then ConstraintViolation
    else Ok
  }

  function Rescheduled(b: Booking, serviceId: string, serviceName: string, price: int, start: int, end: int): Booking {
    b.(serviceId := serviceId, serviceName := serviceName, price := price,
    timeStart := start, timeEnd := end, date := UtcDay(start))
  }

  ghost function RescheduleOutcome(rows: Table, id: string, start: int, end: int): Outcome {
    if id !in rows then NotFound
    else if DayConflict(rows, rows[id].barberId, UtcDay(start), id, start, end) then SlotConflict
    else if IndexClash(rows, rows[id].(timeStart := start)) then ConstraintViolation
    else Ok
  }

  ghost function SetStatusOutcome(rows: Table, id: string, status: Status): Outcome {
    if id !in rows then NotFound
    else if IndexClash(rows, rows[id].(status := status)) then ConstraintViolation
    else Ok
  }

  /** bs lists exactly the rows of the table that the filter keeps, once each, by start time. */
  ghost predicate Lists(bs: seq<Booking>, rows: Table, barberId: string, date: int, pendingOnly: bool) {
    && (forall i :: 0 <= i < |bs| ==>
          bs[i].id in rows && rows[bs[i].id] == bs[i] && Listed(bs[i], barberId, date, pendingOnly))
    && (forall id :: id in rows && Listed(rows[id], barberId, date, pendingOnly) ==> rows[id] in bs)
    && (forall i, j :: 0 <= i < j < |bs| ==> bs[i].id != bs[j].id && bs[i].timeStart <= bs[j].timeStart)
  }

  predicate Listed(b: Booking, barberId: string, date: int, pendingOnly: bool) {
    if pendingOnly then b.barberId == barberId && b.date == date && b.status == Pending
    else OnDay(b, barberId, date)
  }

  /** The listing so far, with the rows of `todo` still to come, none of them earlier. */
  ghost predicate ListsBut(bs: seq<Booking>, rows: Table, barberId: string, date: int, pendingOnly: bool, todo: set<string>) {
    && (forall id :: id in todo ==> id in rows && Listed(rows[id], barberId, date, pendingOnly))
    && (forall i :: 0 <= i < |bs| ==> bs[i].id in rows && bs[i].id !in todo && rows[bs[i].id] == bs[i]
                                      && Listed(bs[i], barberId, date, pendingOnly))
    && (forall id :: id in rows && Listed(rows[id], barberId, date, pendingOnly) && id !in todo ==> rows[id] in bs)
    && (forall i, j :: 0 <= i < j < |bs| ==> bs[i].id != bs[j].id && bs[i].timeStart <= bs[j].timeStart)
    && (forall i, id :: 0 <= i < |bs| && id in todo ==> bs[i].timeStart <= rows[id].timeStart)
  }

  lemma ListOneMore(bs: seq<Booking>, rows: Table, barberId: string, date: int, pendingOnly: bool,
                    todo: set<string>, first: string)
    requires WellKeyed(rows) && ListsBut(bs, rows, barberId, date, pendingOnly, todo) && first in todo
    requires forall id :: id in todo ==> rows[first].timeStart <= rows[id].timeStart
    ensures ListsBut(bs + [rows[first]], rows, barberId, date, pendingOnly, todo - {first})
  {
  }

  class BookingRepo {
    var rows: Table

    ghost predicate Valid()
      reads this
    {
      WellKeyed(rows)
    }

    constructor ()
      ensures Valid() && rows == map[]
    {
      rows := map[];
    }

    /** Checks that the phone has no pending booking, scans the day for an overlap, inserts. */
    method CreateBookingTx(b: Booking) returns (r: Outcome)
      requires Valid()
      modifies this
      ensures Valid()
      ensures r == CreateOutcome(old(rows), b)
      ensures rows == if r == Ok then old(rows)[b.id := b] else old(rows)
    {
      var todo := rows.Keys;
      while todo != {}
        invariant todo <= rows.Keys
        invariant forall id :: id in rows && id !in todo ==>
                    !(rows[id].clientPhone == b.clientPhone && rows[id].status == Pending)
        invariant unchanged(this)
      {
        var id :| id in todo;
        if rows[id].clientPhone == b.clientPhone && rows[id].status == Pending {
          return ActiveBookingExists;
        }
        todo := todo - {id};
      }
      todo := set id | id in rows && OnDay(rows[id], b.barberId, b.date);
      while todo != {}
        invariant todo <= rows.Keys
        invariant forall id :: id in todo ==> OnDay(rows[id], b.barberId, b.date)
        invariant forall id :: id in rows && OnDay(rows[id], b.barberId, b.date) && id !in todo ==>
                    !Overlaps(b.timeStart, b.timeEnd, rows[id].timeStart, rows[id].timeEnd)
        invariant unchanged(this)
      {
        var id :| id in todo;
        if Overlaps(b.timeStart, b.timeEnd, rows[id].timeStart, rows[id].timeEnd) {
          return SlotConflict;
        }
        todo := todo - {id};
      }
      var clash := ViolatesIndex(b);
      if b.id in rows || clash {
        return ConstraintViolation;
      }
      rows := rows[b.id := b];
      r := Ok;
    }

    /** Scans the target day for an overlap with any other active row, then moves the booking there. */
    method UpdateBookingDetailsTx(id: string, serviceId: string, serviceName: string, price: int, start: int, end: int)
      returns (r: Outcome)
      requires Valid()
      modifies this
      ensures Valid()
      ensures r == RescheduleOutcome(old(rows), id, start, end)
      ensures rows == if r == Ok
                      then old(rows)[id := Rescheduled(old(rows)[id], serviceId, serviceName, price, start, end)]
                      else old(rows)
    {
      if id !in rows {
        return NotFound;
      }
      var barberId := rows[id].barberId;
      var date := UtcDay(start);
      var todo := set k | k in rows && OnDay(rows[k], barberId, date);
      while todo != {}
        invariant todo <= rows.Keys
        invariant forall k :: k in todo ==> OnDay(rows[k], barberId, date)
        invariant forall k :: k in rows && k != id && OnDay(rows[k], barberId, date) && k !in todo ==>
                    !Overlaps(start, end, rows[k].timeStart, rows[k].timeEnd)
        invariant unchanged(this)
      {
        var k :| k in todo;
        todo := todo - {k};
        if k == id {
          continue;
        }
        if Overlaps(start, end, rows[k].timeStart, rows[k].timeEnd) {
          return SlotConflict;
        }
      }
      var clash := ViolatesIndex(rows[id].(timeStart := start));
      if clash {
        return ConstraintViolation;
      }
      rows := rows[id := Rescheduled(rows[id], serviceId, serviceName, price, start, end)];
      r := Ok;
    }

    method UpdateBookingStatus(id: string, status: Status) returns (r: Outcome)
      requires Valid()
      modifies this
      ensures Valid()
      ensures r == SetStatusOutcome(old(rows), id, status)
      ensures rows == if r == Ok then old(rows)[id := old(rows)[id].(status := status)] else old(rows)
    {
      if id !in rows {
        return NotFound;
      }
      var clash := ViolatesIndex(rows[id].(status := status));
      if clash {
        return ConstraintViolation;
      }
      rows := rows[id := rows[id].(status := status)];
      r := Ok;
    }

    method DeleteBooking(id: string) returns (r: Outcome)
      requires Valid()
      modifies this
      ensures Valid()
      ensures r == if id in old(rows) then Ok else NotFound
      ensures rows == old(rows) - {id}
    {
      if id !in rows {
        assert rows - {id} == rows;
        return NotFound;
      }
      rows := rows - {id};
      r := Ok;
    }

    /** The table's own check of the partial unique index before a row is written. */
    method ViolatesIndex(b: Booking) returns (clash: bool)
      ensures clash <==> IndexClash(rows, b)
    {
      clash := Active(b.status) && exists id :: id in rows && id != b.id && rows[id].barberId == b.barberId
                                                && rows[id].timeStart == b.timeStart && Active(rows[id].status);
    }

    /** SELECT ... WHERE barber_id AND date AND status ... ORDER BY time_start. */
    method ListDay(barberId: string, date: int, pendingOnly: bool) returns (bs: seq<Booking>)
      requires Valid()
      ensures Lists(bs, rows, barberId, date, pendingOnly)
    {
      bs := [];
      var todo := set id | id in rows && Listed(rows[id], barberId, date, pendingOnly);
      while todo != {}
        invariant ListsBut(bs, rows, barberId, date, pendingOnly, todo)
      {
        var first := Earliest(todo);
        ListOneMore(bs, rows, barberId, date, pendingOnly, todo, first);
        todo := todo - {first};
        bs := bs + [rows[first]];
      }
    }

    /** Some id of the set whose row starts no later than any other. */
    method Earliest(ids: set<string>) returns (first: string)
      requires ids != {} && ids <= rows.Keys
      ensures first in ids
      ensures forall id :: id in ids ==> rows[first].timeStart <= rows[id].timeStart
    {
      first :| first in ids;
      var todo := ids - {first};
      while todo != {}
        invariant todo <= ids
        invariant first in ids
        invariant forall id :: id in ids && id !in todo ==> rows[first].timeStart <= rows[id].timeStart
      {
        var id :| id in todo;
        todo := todo - {id};
        if rows[id].timeStart < rows[first].timeStart {
          first := id;
        }
      }
    }
  }
}
