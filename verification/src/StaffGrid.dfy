/**
 Accounting on the staff grid: a gapless run of quarter hours in which the booked slots add up
 to the booked time.
 */
module StaffGrid {
  import opened Instants
  import opened BookingStore
  import opened BookingSafety
  import opened SlotEngine
  import opened OfferedIsBookable

  /** The grid has floor((end - start) / 15 minutes) slots, each starting where the one before ends. */
  lemma GridCountsAndTiles(slots: seq<Slot>, rows: Table, barberId: string, date: int, h: Hours)
    requires IsStaffGrid(slots, rows, barberId, date, h, SLOT_STEP, SLOT_STEP)
    ensures |slots| == if h.end < h.start then 0 else (h.end - h.start) / SLOT_STEP
    ensures forall i :: 0 <= i < |slots| - 1 ==> slots[i].timeEnd == slots[i + 1].timeStart
    ensures slots != [] ==> slots[0].timeStart == h.start
  {
    if slots != [] {
      var last := slots[|slots| - 1];
      assert Fits(h, last.timeStart, SLOT_STEP);
      assert last.timeStart == GridPoint(h.start, SLOT_STEP, |slots| - 1);
    }
  }

  // ---- counting ----

  function CountBooked(slots: seq<Slot>): nat {
    if slots == [] then 0
    else CountBooked(slots[..|slots| - 1]) + if slots[|slots| - 1].status == Booked then 1 else 0
  }

  /** The slots that carry the booking with this id. */
  function CountCarrying(slots: seq<Slot>, id: string): nat {
    if slots == [] then 0
    else
      var last := slots[|slots| - 1];
      CountCarrying(slots[..|slots| - 1], id) +
      if last.booking.Some? && last.booking.value.bookingId == id then 1 else 0
  }

  function Max(a: int, b: int): int {
    if a < b then b else a
  }

  function Min(a: int, b: int): int {
    if a < b then a else b
  }

  /** The part of booking b that lies in [lo, hi). */
  function Clip(b: Booking, lo: int, hi: int): int {
    Max(0, Min(b.timeEnd, hi) - Max(b.timeStart, lo))
  }

  function TotalClip(bs: seq<Booking>, lo: int, hi: int): int {
    if bs == [] then 0 else Clip(bs[0], lo, hi) + TotalClip(bs[1..], lo, hi)
  }

  function TotalTime(bs: seq<Booking>): int {
    if bs == [] then 0 else (bs[0].timeEnd - bs[0].timeStart) + TotalTime(bs[1..])
  }

  /** Start and end lie on the grid and inside the hours. */
  predicate Aligned(b: Booking, h: Hours) {
    && h.start <= b.timeStart && b.timeStart < b.timeEnd && b.timeEnd <= h.end
    && (b.timeStart - h.start) % SLOT_STEP == 0 && (b.timeEnd - h.start) % SLOT_STEP == 0
  }

  ghost predicate Apart(bs: seq<Booking>) {
    forall i, j :: 0 <= i < j < |bs| ==>
                     !Overlaps(bs[i].timeStart, bs[i].timeEnd, bs[j].timeStart, bs[j].timeEnd)
  }

  /** An aligned booking fills a grid slot or leaves it alone. */
  lemma SlotIsFullOrEmpty(b: Booking, h: Hours, n: nat)
    requires Aligned(b, h)
    ensures var lo := GridPoint(h.start, SLOT_STEP, n);
            Clip(b, lo, lo + SLOT_STEP) ==
            if Overlaps(lo, lo + SLOT_STEP, b.timeStart, b.timeEnd) then SLOT_STEP else 0
  {
    var s, e := (b.timeStart - h.start) / SLOT_STEP, (b.timeEnd - h.start) / SLOT_STEP;
    assert b.timeStart == h.start + s * SLOT_STEP && b.timeEnd == h.start + e * SLOT_STEP;
  }

  lemma {:induction false} ClipAdds(bs: seq<Booking>, lo: int, mid: int, hi: int)
    requires lo <= mid <= hi
    ensures TotalClip(bs, lo, hi) == TotalClip(bs, lo, mid) + TotalClip(bs, mid, hi)
  {
    if bs == [] {
    } else {
      ClipAdds(bs[1..], lo, mid, hi);
    }
  }

  /** Disjoint aligned bookings together fill a slot at most once. */
  lemma {:induction false} SlotShare(bs: seq<Booking>, h: Hours, n: nat)
    requires Apart(bs) && forall i :: 0 <= i < |bs| ==> Aligned(bs[i], h)
    ensures var lo := GridPoint(h.start, SLOT_STEP, n);
            TotalClip(bs, lo, lo + SLOT_STEP) == if Clear(bs, lo, lo + SLOT_STEP) then 0 else SLOT_STEP
  {
    var lo := GridPoint(h.start, SLOT_STEP, n);
    if bs != [] {
      var rest := bs[1..];
      assert forall i :: 0 <= i < |rest| ==> rest[i] == bs[i + 1];
      SlotIsFullOrEmpty(bs[0], h, n);
      SlotShare(rest, h, n);
      if Overlaps(lo, lo + SLOT_STEP, bs[0].timeStart, bs[0].timeEnd) {
        forall i | 0 <= i < |rest|
          ensures !Overlaps(lo, lo + SLOT_STEP, rest[i].timeStart, rest[i].timeEnd)
        {
          SlotIsFullOrEmpty(rest[i], h, n);
          assert !Overlaps(bs[0].timeStart, bs[0].timeEnd, bs[i + 1].timeStart, bs[i + 1].timeEnd);
        }
      } else {
        assert Clear(bs, lo, lo + SLOT_STEP) <==> Clear(rest, lo, lo + SLOT_STEP) by {
          if Clear(rest, lo, lo + SLOT_STEP) {
            forall i | 0 <= i < |bs|
              ensures !Overlaps(lo, lo + SLOT_STEP, bs[i].timeStart, bs[i].timeEnd)
            {
              if i > 0 {
                assert bs[i] == rest[i - 1];
              }
            }
          }
        }
      }
    }
  }

  lemma {:induction false} EmptyClip(bs: seq<Booking>, lo: int)
    ensures TotalClip(bs, lo, lo) == 0
  {
    if bs == [] {
    } else {
      EmptyClip(bs[1..], lo);
    }
  }

  lemma {:induction false} WholeClip(bs: seq<Booking>, h: Hours, hi: int)
    requires forall i :: 0 <= i < |bs| ==> Aligned(bs[i], h) && bs[i].timeEnd <= hi
    ensures TotalClip(bs, h.start, hi) == TotalTime(bs)
  {
    if bs == [] {
    } else {
      assert forall i :: 0 <= i < |bs[1..]| ==> bs[1..][i] == bs[i + 1];
      WholeClip(bs[1..], h, hi);
    }
  }

  /** One slot contributes a full step to the booked time or nothing, as its status says. */
  lemma SlotContributes(slot: Slot, bs: seq<Booking>, rows: Table, barberId: string, date: int,
                        h: Hours, n: nat)
    requires GridSlot(slot, rows, barberId, date, GridPoint(h.start, SLOT_STEP, n), SLOT_STEP)
    requires Lists(bs, rows, barberId, date, false)
    requires Apart(bs) && forall i :: 0 <= i < |bs| ==> Aligned(bs[i], h)
    ensures var lo := GridPoint(h.start, SLOT_STEP, n);
            TotalClip(bs, lo, lo + SLOT_STEP) == if slot.status == Booked then SLOT_STEP else 0
  {
    var lo := GridPoint(h.start, SLOT_STEP, n);
    SlotShare(bs, h, n);
    ScanDecides(bs, rows, barberId, date, false, lo, lo + SLOT_STEP);
    SlotStatusDecides(slot, rows, barberId, date, lo);
  }

  lemma CountStep(slots: seq<Slot>, n: nat, id: string)
    requires n < |slots|
    ensures CountBooked(slots[..n + 1]) == CountBooked(slots[..n]) + if slots[n].status == Booked then 1 else 0
    ensures CountCarrying(slots[..n + 1], id) ==
            CountCarrying(slots[..n], id) +
            if slots[n].booking.Some? && slots[n].booking.value.bookingId == id then 1 else 0
  {
    assert slots[..n + 1][..n] == slots[..n];
  }

  /** Booked slots of the first n account for the booked time before the n-th grid point. */
  lemma {:induction false} BookedPrefix(slots: seq<Slot>, bs: seq<Booking>, start: int, n: nat)
    requires n <= |slots|
    requires forall i :: 0 <= i < |slots| ==>
               TotalClip(bs, GridPoint(start, SLOT_STEP, i), GridPoint(start, SLOT_STEP, i) + SLOT_STEP)
               == if slots[i].status == Booked then SLOT_STEP else 0
    ensures CountBooked(slots[..n]) * SLOT_STEP == TotalClip(bs, start, GridPoint(start, SLOT_STEP, n))
  {
    if n == 0 {
      EmptyClip(bs, start);
    } else {
      BookedPrefix(slots, bs, start, n - 1);
      var lo := GridPoint(start, SLOT_STEP, n - 1);
      assert GridPoint(start, SLOT_STEP, n) == lo + SLOT_STEP;
      ClipAdds(bs, start, lo, lo + SLOT_STEP);
      CountStep(slots, n - 1, "");
    }
  }

  /** A grid slot is booked exactly when some active booking of the day overlaps it. */
  lemma SlotStatusDecides(slot: Slot, rows: Table, barberId: string, date: int, t: int)
    requires GridSlot(slot, rows, barberId, date, t, SLOT_STEP)
    ensures slot.status == Booked <==> Taken(rows, barberId, date, false, t, t + SLOT_STEP)
  {
    if slot.booking.Some? {
      var id :| id in rows && slot.booking.value == CardOf(rows[id])
                && EarliestOverlap(rows, barberId, date, id, t, t + SLOT_STEP);
      assert Listed(rows[id], barberId, date, false);
    }
  }

  /** All grid-aligned bookings inside the hours end by the last grid point. */
  lemma GridReachesEnds(slots: seq<Slot>, rows: Table, barberId: string, date: int, h: Hours, b: Booking)
    requires IsStaffGrid(slots, rows, barberId, date, h, SLOT_STEP, SLOT_STEP) && Aligned(b, h)
    ensures b.timeEnd <= GridPoint(h.start, SLOT_STEP, |slots|)
  {
    var e := (b.timeEnd - h.start) / SLOT_STEP;
    assert b.timeEnd == h.start + e * SLOT_STEP;
    assert !Fits(h, GridPoint(h.start, SLOT_STEP, |slots|), SLOT_STEP);
  }

  /** Disjoint, aligned bookings inside the hours: 15 minutes times the booked slots is the booked time. */
  lemma {:induction false} BookedSlotsAddUp(slots: seq<Slot>, bs: seq<Booking>, rows: Table, barberId: string, date: int,
                                            h: Hours)
    requires IsStaffGrid(slots, rows, barberId, date, h, SLOT_STEP, SLOT_STEP)
    requires Lists(bs, rows, barberId, date, false) && DayDisjoint(rows, barberId, date)
    requires forall i :: 0 <= i < |bs| ==> Aligned(bs[i], h)
    ensures CountBooked(slots) * SLOT_STEP == TotalTime(bs)
  {
    ListingApart(bs, rows, barberId, date);
    forall i | 0 <= i < |slots|
      ensures TotalClip(bs, GridPoint(h.start, SLOT_STEP, i), GridPoint(h.start, SLOT_STEP, i) + SLOT_STEP)
              == if slots[i].status == Booked then SLOT_STEP else 0
    {
      SlotContributes(slots[i], bs, rows, barberId, date, h, i);
    }
    BookedPrefix(slots, bs, h.start, |slots|);
    assert slots[..|slots|] == slots;
    forall i | 0 <= i < |bs|
      ensures bs[i].timeEnd <= GridPoint(h.start, SLOT_STEP, |slots|)
    {
      GridReachesEnds(slots, rows, barberId, date, h, bs[i]);
    }
    WholeClip(bs, h, GridPoint(h.start, SLOT_STEP, |slots|));
  }

  lemma ListingApart(bs: seq<Booking>, rows: Table, barberId: string, date: int)
    requires Lists(bs, rows, barberId, date, false) && DayDisjoint(rows, barberId, date)
    ensures Apart(bs)
  {
    forall i, j | 0 <= i < j < |bs|
      ensures !Overlaps(bs[i].timeStart, bs[i].timeEnd, bs[j].timeStart, bs[j].timeEnd)
    {
      assert !Clash(rows[bs[i].id], rows[bs[j].id]);
    }
  }

  /** On a day without overlaps a slot carries a booking exactly when that booking overlaps the slot. */
  lemma SlotCarriesOverlap(slot: Slot, rows: Table, barberId: string, date: int, h: Hours, n: nat, id: string)
    requires WellKeyed(rows) && DayDisjoint(rows, barberId, date)
    requires forall k :: k in rows && OnDay(rows[k], barberId, date) ==> Aligned(rows[k], h)
    requires id in rows && OnDay(rows[id], barberId, date)
    requires GridSlot(slot, rows, barberId, date, GridPoint(h.start, SLOT_STEP, n), SLOT_STEP)
    ensures (slot.booking.Some? && slot.booking.value.bookingId == id)
            <==> Overlaps(slot.timeStart, slot.timeEnd, rows[id].timeStart, rows[id].timeEnd)
  {
    var t := GridPoint(h.start, SLOT_STEP, n);
    SlotStatusDecides(slot, rows, barberId, date, t);
    if slot.booking.Some? {
      var k :| k in rows && slot.booking.value == CardOf(rows[k])
               && EarliestOverlap(rows, barberId, date, k, t, t + SLOT_STEP);
      SlotIsFullOrEmpty(rows[k], h, n);
      SlotIsFullOrEmpty(rows[id], h, n);
    }
  }

  lemma {:induction false} CarryingPrefix(slots: seq<Slot>, rows: Table, barberId: string, date: int, h: Hours, id: string,
                                          n: nat)
    requires forall i :: 0 <= i < |slots| ==>
               GridSlot(slots[i], rows, barberId, date, GridPoint(h.start, SLOT_STEP, i), SLOT_STEP)
    requires n <= |slots|
    requires WellKeyed(rows) && DayDisjoint(rows, barberId, date)
    requires forall k :: k in rows && OnDay(rows[k], barberId, date) ==> Aligned(rows[k], h)
    requires id in rows && OnDay(rows[id], barberId, date)
    ensures CountCarrying(slots[..n], id) * SLOT_STEP == Clip(rows[id], h.start, GridPoint(h.start, SLOT_STEP, n))
  {
    if n == 0 {
    } else {
      CarryingPrefix(slots, rows, barberId, date, h, id, n - 1);
      CarryingSlot(slots[n - 1], rows, barberId, date, h, id, n - 1);
      CountStep(slots, n - 1, id);
    }
  }

  /** A slot that carries the booking holds a full step of its time, any other none. */
  lemma CarryingSlot(slot: Slot, rows: Table, barberId: string, date: int, h: Hours, id: string, n: nat)
    requires GridSlot(slot, rows, barberId, date, GridPoint(h.start, SLOT_STEP, n), SLOT_STEP)
    requires WellKeyed(rows) && DayDisjoint(rows, barberId, date)
    requires forall k :: k in rows && OnDay(rows[k], barberId, date) ==> Aligned(rows[k], h)
    requires id in rows && OnDay(rows[id], barberId, date)
    ensures var mid, hi := GridPoint(h.start, SLOT_STEP, n), GridPoint(h.start, SLOT_STEP, n + 1);
            Clip(rows[id], h.start, hi) == Clip(rows[id], h.start, mid) +
            if slot.booking.Some? && slot.booking.value.bookingId == id then SLOT_STEP else 0
  {
    SlotIsFullOrEmpty(rows[id], h, n);
    SlotCarriesOverlap(slot, rows, barberId, date, h, n, id);
  }

  /** Each such booking appears on exactly duration / 15 minutes slots. */
  lemma BookingFillsItsSlots(slots: seq<Slot>, rows: Table, barberId: string, date: int, h: Hours, id: string)
    requires IsStaffGrid(slots, rows, barberId, date, h, SLOT_STEP, SLOT_STEP)
    requires WellKeyed(rows) && DayDisjoint(rows, barberId, date)
    requires forall k :: k in rows && OnDay(rows[k], barberId, date) ==> Aligned(rows[k], h)
    requires id in rows && OnDay(rows[id], barberId, date)
    ensures CountCarrying(slots, id) * SLOT_STEP == rows[id].timeEnd - rows[id].timeStart
  {
    CarryingPrefix(slots, rows, barberId, date, h, id, |slots|);
    assert slots[..|slots|] == slots;
    GridReachesEnds(slots, rows, barberId, date, h, rows[id]);
  }
}
