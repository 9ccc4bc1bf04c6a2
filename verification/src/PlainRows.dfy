/** Rows of the bookings table and instants, described by their columns alone. */
module PlainRows {
  import opened Instants
  import opened BookingStore

  /** The row takes up time of this barber under this date. */
  predicate OccupiesDate(row: Booking, barberId: string, date: int) {
    row.barberId == barberId && row.date == date && row.status != Cancelled && row.status != NoShow
  }

  /** The same for the UTC day that contains t. */
  predicate OccupiesDayOf(row: Booking, barberId: string, t: int) {
    && row.barberId == barberId && row.status != Cancelled && row.status != NoShow
    && row.date * DAY <= t < (row.date + 1) * DAY
  }

  /** Neither the row's time nor [start, end) is over when the other begins. */
  predicate Meets(row: Booking, start: int, end: int) {
    !(row.timeEnd <= start || end <= row.timeStart)
  }

  lemma DayOfInstant(date: int, t: int)
    ensures UtcDay(t) == date <==> date * DAY <= t < (date + 1) * DAY
  {
  }

  /** The scans read exactly the rows that occupy the date. */
  lemma ScanReadsOccupied(row: Booking, barberId: string, date: int)
    ensures OnDay(row, barberId, date) <==> OccupiesDate(row, barberId, date)
    ensures Listed(row, barberId, date, true) <==> row.barberId == barberId && row.date == date && row.status == Pending
    ensures Listed(row, barberId, date, false) <==> OccupiesDate(row, barberId, date)
  {
  }

  /** The listing of a day holds exactly its rows, each once, by start time. */
  lemma ListingIsPlain(bs: seq<Booking>, rows: Table, barberId: string, date: int, pendingOnly: bool)
    requires WellKeyed(rows) && Lists(bs, rows, barberId, date, pendingOnly)
    ensures forall b :: b in bs <==>
                          b.id in rows && rows[b.id] == b
                          && if pendingOnly then b.barberId == barberId && b.date == date && b.status == Pending
                             else OccupiesDate(b, barberId, date)
    ensures forall i, j :: 0 <= i < j < |bs| ==> bs[i].id != bs[j].id && bs[i].timeStart <= bs[j].timeStart
  {
  }
}
