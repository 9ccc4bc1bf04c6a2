/**
 The slot listings of the booking service: the staff grid, the ordinary free list and the
 compact list. Each method loops over instants and stored bookings; its contract says which
 slots come out, in terms of the bookings table alone.
 */
module SlotEngine {
  import opened Wrappers
  import opened Instants
  import opened BookingStore
  import opened Sorting

  datatype SlotStatus = Free | Booked

  datatype SlotBooking = SlotBooking(bookingId: string, clientName: string, clientPhone: string,
                                     serviceName: string, status: Status)

  datatype Slot = Slot(status: SlotStatus, timeStart: int, timeEnd: int, booking: Option<SlotBooking>)

  // One row of the staff schedule, its times already parsed to minutes after midnight.
  datatype WorkDay = WorkDay(date: int, startMinute: int, endMinute: int)

  datatype Hours = Hours(start: int, end: int)

  function CardOf(b: Booking): SlotBooking {
    SlotBooking(b.id, b.clientName, b.clientPhone, b.serviceName, b.status)
  }

  /** day is the row at the least index with this date. */
  ghost predicate IsFirstOfDate(days: seq<WorkDay>, date: int, day: Option<WorkDay>) {
    match day
    case None => forall i :: 0 <= i < |days| ==> days[i].date != date
    case Some(row) => exists i :: 0 <= i < |days| && days[i] == row && row.date == date
                                  && forall j :: 0 <= j < i ==> days[j].date != date
  }

  function FirstDay(days: seq<WorkDay>, date: int): Option<WorkDay> {
    if days == [] then None
    else if days[0].date == date then Some(days[0])
    else FirstDay(days[1..], date)
  }

  lemma {:induction false} FirstDayIsFirst(days: seq<WorkDay>, date: int)
    ensures IsFirstOfDate(days, date, FirstDay(days, date))
  {
    if days == [] {
    } else if days[0].date != date {
      FirstDayIsFirst(days[1..], date);
      assert forall i :: 0 < i < |days| ==> days[i] == days[1..][i - 1];
      assert forall i :: 0 <= i < |days[1..]| ==> days[i + 1] == days[1..][i];
    }
  }

  predicate IsToday(date: int, now: int) {
    UtcDay(now) == date
  }

  /** The hours to fill. With `clampToday`, today starts three hours from now, rounded up, even
      when that is before opening time. */
  function HoursOn(days: seq<WorkDay>, date: int, now: int, clampToday: bool, step: int): Option<Hours>
    requires step > 0
  {
    match FirstDay(days, date)
    case None => None
    case Some(day) =>
      var start := if clampToday && IsToday(date, now) then RoundUp(now + 3 * HOUR, step)
                   else date * DAY + day.startMinute * MINUTE;
      Some(Hours(start, date * DAY + day.endMinute * MINUTE))
  }

  /** h are the hours of the first row of the date. Only an offer to clients for today starts at the
      least multiple of the step three hours from now instead. */
  ghost predicate AreHoursOf(h: Option<Hours>, days: seq<WorkDay>, date: int, now: int, clampToday: bool, step: int)
    requires step > 0
  {
    match h
    case None => forall i :: 0 <= i < |days| ==> days[i].date != date
    case Some(hours) =>
      exists i :: 0 <= i < |days| && days[i].date == date && (forall j :: 0 <= j < i ==> days[j].date != date)
                  && hours.end == date * DAY + days[i].endMinute * MINUTE
                  && if clampToday && date * DAY <= now < (date + 1) * DAY
                     then UNIX_EPOCH % step == 0 ==> IsLeastMultipleFrom(hours.start, now + 180 * MINUTE, step)
                     else hours.start == date * DAY + days[i].startMinute * MINUTE
  }

  lemma HoursArePlain(days: seq<WorkDay>, date: int, now: int, clampToday: bool, step: int)
    requires step > 0
    ensures AreHoursOf(HoursOn(days, date, now, clampToday, step), days, date, now, clampToday, step)
  {
    FirstDayIsFirst(days, date);
    if IsToday(date, now) {
      RoundUpExact(now + 3 * HOUR, step);
    }
    assert IsToday(date, now) <==> date * DAY <= now < (date + 1) * DAY;
  }

  function GridPoint(origin: int, stride: int, k: nat): int {
    origin + k * stride
  }

  ghost predicate OnGrid(t: int, origin: int, stride: int) {
    exists k: nat :: t == GridPoint(origin, stride, k)
  }

  /** Some listed row of the day overlaps [t, e). */
  ghost predicate Taken(rows: Table, barberId: string, date: int, pendingOnly: bool, t: int, e: int) {
    exists id :: id in rows && Listed(rows[id], barberId, date, pendingOnly)
                 && Overlaps(t, e, rows[id].timeStart, rows[id].timeEnd)
  }

  /** The slots are free slots of length `window`, in strictly increasing order, and start exactly at `starts`. */
  ghost predicate OffersExactly(slots: seq<Slot>, starts: iset<int>, window: int) {
    && (forall i :: 0 <= i < |slots| ==>
          slots[i].timeStart in starts && slots[i] == Slot(Free, slots[i].timeStart, slots[i].timeStart + window, None))
    && (forall t :: t in starts ==> exists i :: 0 <= i < |slots| && slots[i].timeStart == t)
    && (forall i, j :: 0 <= i < j < |slots| ==> slots[i].timeStart < slots[j].timeStart)
  }

  ghost function Below(starts: iset<int>, bound: int): iset<int> {
    iset t | t in starts && t < bound
  }

  /** The part of an exact offer that lies before `bound`. */
  ghost predicate OffersBelow(slots: seq<Slot>, starts: iset<int>, window: int, bound: int) {
    OffersExactly(slots, Below(starts, bound), window)
  }

  lemma OfferGrows(slots: seq<Slot>, starts: iset<int>, window: int, t: int, bound: int)
    requires OffersBelow(slots, starts, window, t) && t < bound
    requires forall u :: u in starts && u < bound ==> u <= t
    ensures t in starts ==> OffersBelow(slots + [Slot(Free, t, t + window, None)], starts, window, bound)
    ensures t !in starts ==> OffersBelow(slots, starts, window, bound)
  {
    var grown := slots + [Slot(Free, t, t + window, None)];
    assert grown[|slots|].timeStart == t;
    forall u | u in starts && u < t
      ensures exists i :: 0 <= i < |grown| && grown[i].timeStart == u
    {
      assert u in Below(starts, t);
      var i :| 0 <= i < |slots| && slots[i].timeStart == u;
      assert grown[i].timeStart == u;
    }
  }

  /** Ordinary free list: every other grid point whose window fits and meets no pending booking. */
  ghost function FreeStarts(rows: Table, barberId: string, date: int, h: Hours, step: int, window: int): iset<int> {
    iset t | OnGrid(t, h.start, 2 * step) && t < h.end && t + window <= h.end
             && !Taken(rows, barberId, date, true, t, t + window)
  }

  /** Staff grid: every grid point whose window fits, each carrying the earliest overlapping booking. */
  ghost predicate IsStaffGrid(slots: seq<Slot>, rows: Table, barberId: string, date: int, h: Hours, step: int, window: int) {
    && (forall i :: 0 <= i < |slots| ==> GridSlot(slots[i], rows, barberId, date, GridPoint(h.start, step, i), window))
    && (forall i :: 0 <= i < |slots| ==> Fits(h, slots[i].timeStart, window))
    && !Fits(h, GridPoint(h.start, step, |slots|), window)
  }

  predicate Fits(h: Hours, t: int, window: int) {
    t < h.end && t + window <= h.end
  }

  ghost predicate GridSlot(slot: Slot, rows: Table, barberId: string, date: int, t: int, window: int) {
    && slot.timeStart == t && slot.timeEnd == t + window
    && (slot.status == Booked <==> slot.booking.Some?)
    && (slot.booking.None? ==> !Taken(rows, barberId, date, false, t, t + window))
    && (slot.booking.Some? ==>
          exists id :: id in rows && slot.booking.value == CardOf(rows[id])
                       && EarliestOverlap(rows, barberId, date, id, t, t + window))
  }

  ghost predicate EarliestOverlap(rows: Table, barberId: string, date: int, id: string, t: int, e: int)
    requires id in rows
  {
    && OnDay(rows[id], barberId, date) && Overlaps(t, e, rows[id].timeStart, rows[id].timeEnd)
    && forall k :: k in rows && OnDay(rows[k], barberId, date) && Overlaps(t, e, rows[k].timeStart, rows[k].timeEnd) ==>
                     rows[id].timeStart <= rows[k].timeStart
  }

  /** The compact list falls back to the full grid on an empty day, and today once the last booking is over. */
  predicate FullGrid(bs: seq<Booking>, h: Hours, today: bool) {
    |bs| == 0 || (today && bs[|bs| - 1].timeEnd < h.start)
  }

  /** Otherwise a start touches a booking on either side, fits, and overlaps none. */
  ghost predicate Adjacent(bs: seq<Booking>, t: int, window: int) {
    exists i :: 0 <= i < |bs| && (t == bs[i].timeStart - window || t == bs[i].timeEnd)
  }

  ghost predicate Clear(bs: seq<Booking>, t: int, e: int) {
    forall i :: 0 <= i < |bs| ==> !Overlaps(t, e, bs[i].timeStart, bs[i].timeEnd)
  }

  ghost function GridStarts(h: Hours, step: int, window: int): iset<int> {
    iset t | OnGrid(t, h.start, 2 * step) && t + window <= h.end
  }

  ghost function CompactStarts(bs: seq<Booking>, h: Hours, today: bool, step: int, window: int): iset<int> {
    if FullGrid(bs, h, today) then GridStarts(h, step, window)
    else iset t | Adjacent(bs, t, window) && h.start <= t && t + window <= h.end && Clear(bs, t, t + window)
  }

  lemma GridSpacing(origin: int, stride: int, k: nat, l: nat)
    requires stride > 0
    requires k < l
    ensures GridPoint(origin, stride, k) + stride <= GridPoint(origin, stride, l)
  {
    ProductAtLeast(l - k, stride);
    assert l * stride == k * stride + (l - k) * stride;
  }

  /** The next grid point after t is t + stride. */
  lemma NextGridPoints(t: int, origin: int, stride: int, k: nat)
    requires stride > 0 && t == GridPoint(origin, stride, k)
    ensures forall u :: OnGrid(u, origin, stride) && u < t + stride ==> u <= t
    ensures t + stride == GridPoint(origin, stride, k + 1)
  {
    forall u | OnGrid(u, origin, stride) && u < t + stride
      ensures u <= t
    {
      var l: nat :| u == GridPoint(origin, stride, l);
      if k < l {
        GridSpacing(origin, stride, k, l);
      } else if l < k {
        GridSpacing(origin, stride, l, k);
      }
    }
  }

  lemma BeforeOrigin(origin: int, stride: int)
    requires stride > 0
    ensures forall u :: OnGrid(u, origin, stride) ==> u >= origin
    ensures GridPoint(origin, stride, 0) == origin
  {
    forall u | OnGrid(u, origin, stride)
      ensures u >= origin
    {
      var l: nat :| u == GridPoint(origin, stride, l);
      if l > 0 {
        GridSpacing(origin, stride, 0, l);
      }
    }
  }

  method WorkingHours(days: seq<WorkDay>, date: int, now: int, clampToday: bool, step: int) returns (h: Option<Hours>)
    requires step > 0
    ensures h == HoursOn(days, date, now, clampToday, step)
    ensures AreHoursOf(h, days, date, now, clampToday, step)
  {
    HoursArePlain(days, date, now, clampToday, step);
    h := None;
    var i := 0;
    while i < |days|
      invariant 0 <= i <= |days|
      invariant h.None?
      invariant FirstDay(days, date) == FirstDay(days[i..], date)
    {
      if days[i].date == date {
        h := Some(Hours(date * DAY + days[i].startMinute * MINUTE, date * DAY + days[i].endMinute * MINUTE));
        break;
      }
      assert days[i..][1..] == days[i + 1..];
      i := i + 1;
    }
    if h.Some? && clampToday && IsToday(date, now) {
      h := Some(h.value.(start := RoundUp(now + 3 * HOUR, step)));
    }
  }

  /** Index of the first listed booking that overlaps [t, e), or the length of the list. */
  method FirstOverlap(bs: seq<Booking>, t: int, e: int) returns (k: nat)
    ensures k <= |bs|
    ensures k < |bs| ==> Overlaps(t, e, bs[k].timeStart, bs[k].timeEnd)
    ensures forall i :: 0 <= i < k ==> !Overlaps(t, e, bs[i].timeStart, bs[i].timeEnd)
  {
    k := 0;
    while k < |bs|
      invariant k <= |bs|
      invariant forall i :: 0 <= i < k ==> !Overlaps(t, e, bs[i].timeStart, bs[i].timeEnd)
    {
      if Overlaps(t, e, bs[k].timeStart, bs[k].timeEnd) {
        return;
      }
      k := k + 1;
    }
  }

  /** What the scan of a listing says about the table. */
  lemma ScanDecides(bs: seq<Booking>, rows: Table, barberId: string, date: int, pendingOnly: bool,
                    t: int, e: int)
    requires Lists(bs, rows, barberId, date, pendingOnly)
    ensures Clear(bs, t, e) <==> !Taken(rows, barberId, date, pendingOnly, t, e)
  {
    if Taken(rows, barberId, date, pendingOnly, t, e) {
      var id :| id in rows && Listed(rows[id], barberId, date, pendingOnly)
                && Overlaps(t, e, rows[id].timeStart, rows[id].timeEnd);
      assert rows[id] in bs;
    }
    if !Clear(bs, t, e) {
      var i :| 0 <= i < |bs| && Overlaps(t, e, bs[i].timeStart, bs[i].timeEnd);
      assert bs[i].id in rows && rows[bs[i].id] == bs[i];
    }
  }

  lemma FirstOverlapIsEarliest(bs: seq<Booking>, rows: Table, barberId: string, date: int,
                               k: nat, t: int, e: int)
    requires Lists(bs, rows, barberId, date, false) && k < |bs|
    requires Overlaps(t, e, bs[k].timeStart, bs[k].timeEnd)
    requires forall i :: 0 <= i < k ==> !Overlaps(t, e, bs[i].timeStart, bs[i].timeEnd)
    ensures bs[k].id in rows && rows[bs[k].id] == bs[k] && EarliestOverlap(rows, barberId, date, bs[k].id, t, e)
  {
    forall id | id in rows && OnDay(rows[id], barberId, date) && Overlaps(t, e, rows[id].timeStart, rows[id].timeEnd)
      ensures bs[k].timeStart <= rows[id].timeStart
    {
      assert Listed(rows[id], barberId, date, false);
      assert rows[id] in bs;
      var i :| 0 <= i < |bs| && bs[i] == rows[id];
      assert i >= k;
    }
  }

  /** Both modes of the ordinary listing: every step for staff, every second step for clients. */
  method BuildSlots(repo: BookingRepo, barberId: string, date: int, days: seq<WorkDay>, now: int,
                    onlyFree: bool, step: int, window: int)
    returns (slots: seq<Slot>)
    requires repo.Valid() && step > 0
    ensures HoursOn(days, date, now, onlyFree, step).None? ==> slots == []
    ensures HoursOn(days, date, now, onlyFree, step).Some? ==>
              var h := HoursOn(days, date, now, onlyFree, step).value;
              if onlyFree then OffersExactly(slots, FreeStarts(repo.rows, barberId, date, h, step, window), window)
              else IsStaffGrid(slots, repo.rows, barberId, date, h, step, window)
  {
    slots := [];
    var hours := WorkingHours(days, date, now, onlyFree, step);
    if hours.None? {
      return;
    }
    var h := hours.value;
    var bookings := repo.ListDay(barberId, date, onlyFree);
    if onlyFree {
      slots := FreeList(bookings, repo.rows, barberId, date, h, step, window);
    } else {
      slots := StaffList(bookings, repo.rows, barberId, date, h, step, window);
    }
  }

  method FreeList(bookings: seq<Booking>, ghost rows: Table, ghost barberId: string, ghost date: int,
                  h: Hours, step: int, window: int)
    returns (slots: seq<Slot>)
    requires step > 0 && Lists(bookings, rows, barberId, date, true)
    ensures OffersExactly(slots, FreeStarts(rows, barberId, date, h, step, window), window)
  {
    slots := [];
    ghost var starts := FreeStarts(rows, barberId, date, h, step, window);
    BeforeOrigin(h.start, 2 * step);
    var t := h.start;
    ghost var k: nat := 0;
    while t < h.end
      invariant t == GridPoint(h.start, 2 * step, k)
      invariant OffersBelow(slots, starts, window, t)
      decreases h.end - t
    {
      var slotEnd := t + window;
      if slotEnd > h.end {
        break;
      }
      var hit := FirstOverlap(bookings, t, slotEnd);
      ScanDecides(bookings, rows, barberId, date, true, t, slotEnd);
      assert hit == |bookings| <==> Clear(bookings, t, slotEnd);
      assert OnGrid(t, h.start, 2 * step);
      assert t in starts <==> hit == |bookings|;
      NextGridPoints(t, h.start, 2 * step, k);
      OfferGrows(slots, starts, window, t, t + 2 * step);
      if hit == |bookings| {
        slots := slots + [Slot(Free, t, slotEnd, None)];
      }
      t := t + 2 * step;
      k := k + 1;
    }
    assert Below(starts, t) == starts;
  }

  method StaffList(bookings: seq<Booking>, ghost rows: Table, ghost barberId: string, ghost date: int,
                   h: Hours, step: int, window: int)
    returns (slots: seq<Slot>)
    requires step > 0 && Lists(bookings, rows, barberId, date, false)
    ensures IsStaffGrid(slots, rows, barberId, date, h, step, window)
  {
    slots := [];
    var t := h.start;
    while t < h.end
      invariant t == GridPoint(h.start, step, |slots|)
      invariant forall i :: 0 <= i < |slots| ==> GridSlot(slots[i], rows, barberId, date, GridPoint(h.start, step, i), window)
      invariant forall i :: 0 <= i < |slots| ==> Fits(h, slots[i].timeStart, window)
      decreases h.end - t
    {
      var slotEnd := t + window;
      if slotEnd > h.end {
        break;
      }
      var hit := FirstOverlap(bookings, t, slotEnd);
      ScanDecides(bookings, rows, barberId, date, false, t, slotEnd);
      assert hit == |bookings| <==> Clear(bookings, t, slotEnd);
      var slot := Slot(Free, t, slotEnd, None);
      if hit < |bookings| {
        FirstOverlapIsEarliest(bookings, rows, barberId, date, hit, t, slotEnd);
        slot := Slot(Booked, t, slotEnd, Some(CardOf(bookings[hit])));
      }
      assert GridSlot(slot, rows, barberId, date, t, window);
      NextGridPoints(t, h.start, step, |slots|);
      slots := slots + [slot];
      t := t + step;
    }
  }

  function Instant(t: int): int {
    t
  }

  /** The order the service sorts candidate starts into; the candidates are distinct. */
  method SortStarts(a: seq<int>) returns (s: seq<int>)
    requires forall i, j :: 0 <= i < j < |a| ==> a[i] != a[j]
    ensures forall x :: x in s <==> x in a
    ensures forall i, j :: 0 <= i < j < |s| ==> s[i] < s[j]
  {
    s := [];
    for n := 0 to |a|
      invariant forall x :: x in s <==> x in a[..n]
      invariant Sorted(s, Instant)
    {
      assert a[n] !in a[..n];
      assert a[..n + 1] == a[..n] + [a[n]];
      s := Insert(s, Instant, a[n]);
    }
    assert a[..|a|] == a;
  }

  /** Starts for clients in compact mode; the ghost result is the day listing it was computed from. */
  method BuildCompactSlots(repo: BookingRepo, barberId: string, date: int, days: seq<WorkDay>, now: int,
                           step: int, window: int)
    returns (slots: seq<Slot>, ghost bs: seq<Booking>)
    requires repo.Valid() && step > 0
    ensures HoursOn(days, date, now, true, step).None? ==> slots == []
    ensures HoursOn(days, date, now, true, step).Some? ==>
              && Lists(bs, repo.rows, barberId, date, false)
              && OffersExactly(slots, CompactStarts(bs, HoursOn(days, date, now, true, step).value, IsToday(date, now),
                                                    step, window), window)
  {
    slots, bs := [], [];
    var hours := WorkingHours(days, date, now, true, step);
    if hours.None? {
      return;
    }
    var h := hours.value;
    var bookings := repo.ListDay(barberId, date, false);
    bs := bookings;
    if |bookings| == 0 || (IsToday(date, now) && bookings[|bookings| - 1].timeEnd < h.start) {
      slots := WholeGrid(h, step, window);
      return;
    }
    var candidates := Candidates(bookings, h, window);
    candidates := SortStarts(candidates);
    slots := SlotsAt(candidates, CompactStarts(bs, h, IsToday(date, now), step, window), window);
  }

  /** One free slot for each candidate, in order. */
  method SlotsAt(candidates: seq<int>, ghost starts: iset<int>, window: int) returns (slots: seq<Slot>)
    requires forall t :: t in candidates <==> t in starts
    requires forall i, j :: 0 <= i < j < |candidates| ==> candidates[i] < candidates[j]
    ensures OffersExactly(slots, starts, window)
  {
    slots := [];
    for i := 0 to |candidates|
      invariant |slots| == i
      invariant forall j :: 0 <= j < i ==> slots[j] == Slot(Free, candidates[j], candidates[j] + window, None)
    {
      slots := slots + [Slot(Free, candidates[i], candidates[i] + window, None)];
    }
    forall t | t in starts
      ensures exists i :: 0 <= i < |slots| && slots[i].timeStart == t
    {
      var i :| 0 <= i < |candidates| && candidates[i] == t;
      assert slots[i].timeStart == t;
    }
    forall i | 0 <= i < |slots|
      ensures slots[i].timeStart in starts
    {
      assert candidates[i] in candidates;
    }
  }

  method WholeGrid(h: Hours, step: int, window: int) returns (slots: seq<Slot>)
    requires step > 0
    ensures OffersExactly(slots, GridStarts(h, step, window), window)
  {
    slots := [];
    ghost var starts := GridStarts(h, step, window);
    BeforeOrigin(h.start, 2 * step);
    var t := h.start;
    ghost var k: nat := 0;
    while t + window <= h.end
      invariant t == GridPoint(h.start, 2 * step, k)
      invariant OffersBelow(slots, starts, window, t)
      decreases h.end - t - window
    {
      assert OnGrid(t, h.start, 2 * step);
      NextGridPoints(t, h.start, 2 * step, k);
      OfferGrows(slots, starts, window, t, t + 2 * step);
      slots := slots + [Slot(Free, t, t + window, None)];
      t := t + 2 * step;
      k := k + 1;
    }
    assert Below(starts, t) == starts;
  }

  /** Collects the starts that touch a booking, each once, dropping those that do not fit or overlap. */
  method Candidates(bookings: seq<Booking>, h: Hours, window: int) returns (candidates: seq<int>)
    ensures forall t :: t in candidates <==>
                          Adjacent(bookings, t, window) && h.start <= t && t + window <= h.end && Clear(bookings, t, t + window)
    ensures forall i, j :: 0 <= i < j < |candidates| ==> candidates[i] != candidates[j]
  {
    candidates := [];
    var seen: set<int> := {};
    for n := 0 to |bookings|
      invariant forall t :: t in seen <==> Adjacent(bookings[..n], t, window)
      invariant Kept(bookings, h, window, candidates, seen)
    {
      var b := bookings[n];
      candidates, seen := Consider(bookings, h, window, b.timeStart - window, candidates, seen);
      candidates, seen := Consider(bookings, h, window, b.timeEnd, candidates, seen);
      AdjacentStep(bookings, n, window);
    }
    assert bookings[..|bookings|] == bookings;
  }

  lemma AdjacentStep(bookings: seq<Booking>, n: nat, window: int)
    requires n < |bookings|
    ensures forall t :: Adjacent(bookings[..n + 1], t, window) <==>
                          Adjacent(bookings[..n], t, window) || t == bookings[n].timeStart - window || t == bookings[n].timeEnd
  {
    forall t
      ensures Adjacent(bookings[..n + 1], t, window) <==>
              Adjacent(bookings[..n], t, window) || t == bookings[n].timeStart - window || t == bookings[n].timeEnd
    {
      if Adjacent(bookings[..n], t, window) {
        var i :| 0 <= i < n && (t == bookings[..n][i].timeStart - window || t == bookings[..n][i].timeEnd);
        assert bookings[..n + 1][i] == bookings[i];
      }
      if t == bookings[n].timeStart - window || t == bookings[n].timeEnd {
        assert bookings[..n + 1][n] == bookings[n];
      }
      if Adjacent(bookings[..n + 1], t, window) {
        var i :| 0 <= i < n + 1 && (t == bookings[..n + 1][i].timeStart - window || t == bookings[..n + 1][i].timeEnd);
        assert i < n ==> bookings[..n][i] == bookings[i];
      }
    }
  }

  /** The candidates are the starts seen so far that fit and overlap no booking, each once. */
  ghost predicate Kept(bookings: seq<Booking>, h: Hours, window: int, candidates: seq<int>, seen: set<int>) {
    && (forall t :: t in candidates <==>
                      t in seen && h.start <= t && t + window <= h.end && Clear(bookings, t, t + window))
    && forall i, j :: 0 <= i < j < |candidates| ==> candidates[i] != candidates[j]
  }

  /** The body of the inner loop for one candidate. */
  method Consider(bookings: seq<Booking>, h: Hours, window: int, t: int, candidates: seq<int>, seen: set<int>)
    returns (candidates': seq<int>, seen': set<int>)
    requires Kept(bookings, h, window, candidates, seen)
    ensures seen' == seen + {t}
    ensures Kept(bookings, h, window, candidates', seen')
  {
    candidates', seen' := candidates, seen + {t};
    if t in seen {
      return;
    }
    if t < h.start || t + window > h.end {
      return;
    }
    var hit := FirstOverlap(bookings, t, t + window);
    if hit == |bookings| {
      candidates' := candidates + [t];
    }
  }
}
