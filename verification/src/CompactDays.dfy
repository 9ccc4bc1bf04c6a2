/**
 Compact mode and fragmentation. A day is a map from booking ids to busy spans; its maximal
 gap-free blocks are counted by their heads, the spans that no other span runs into.
 */
module CompactDays {
  import opened Instants
  import opened BookingStore
  import opened BookingSafety
  import opened SlotEngine
  import opened OfferedIsBookable

  datatype Span = Span(start: int, end: int)

  type Busy = map<string, Span>

  ghost function DaySpans(rows: Table, barberId: string, date: int): Busy {
    map id | id in rows && OnDay(rows[id], barberId, date) :: Span(rows[id].timeStart, rows[id].timeEnd)
  }

  ghost predicate Disjoint(m: Busy) {
    && (forall i :: i in m ==> m[i].start < m[i].end)
    && (forall i, j :: i in m && j in m && i != j ==> !Overlaps(m[i].start, m[i].end, m[j].start, m[j].end))
  }

  ghost predicate IsHead(m: Busy, id: string)
    requires id in m
  {
    forall k :: k in m ==> m[k].end != m[id].start
  }

  /** One id for each maximal block of touching spans: the span that begins the block. */
  ghost function Heads(m: Busy): set<string> {
    set id | id in m && IsHead(m, id)
  }

  ghost predicate Covered(m: Busy, t: int) {
    exists k :: k in m && m[k].start <= t < m[k].end
  }

  /** No instant between the start of one booking and the end of another is idle. */
  ghost predicate GapFree(m: Busy) {
    forall i, j, t :: i in m && j in m && m[i].start <= t < m[j].end ==> Covered(m, t)
  }

  lemma {:induction false} SubsetSize<T>(a: set<T>, b: set<T>)
    requires a <= b
    ensures |a| <= |b|
  {
    if a == {} {
    } else {
      var x :| x in a;
      SubsetSize(a - {x}, b - {x});
    }
  }

  lemma TwoMembers<T>(a: set<T>, x: T, y: T)
    requires x in a && y in a && x != y
    ensures |a| >= 2
  {
    SubsetSize({x, y}, a);
  }

  /** The earliest of the spans that start after t. */
  lemma {:induction false} EarliestAfter(m: Busy, ids: set<string>) returns (first: string)
    requires ids != {} && ids <= m.Keys
    ensures first in ids && forall k :: k in ids ==> m[first].start <= m[k].start
    decreases |ids|
  {
    var x :| x in ids;
    if ids == {x} {
      first := x;
    } else {
      first := EarliestAfter(m, ids - {x});
      if m[x].start < m[first].start {
        first := x;
      }
    }
  }

  /** Counting heads is the same as looking for idle instants: at most one block means no gap. */
  lemma OneBlockIsGapFree(m: Busy)
    requires Disjoint(m)
    ensures |Heads(m)| <= 1 <==> GapFree(m)
  {
    if |Heads(m)| <= 1 {
      forall i, j, t | i in m && j in m && m[i].start <= t < m[j].end
        ensures Covered(m, t)
      {
        if !Covered(m, t) {
          var later := set k | k in m && m[k].start > t;
          assert j in later;
          var c := EarliestAfter(m, later);
          var a := EarliestAfter(m, m.Keys);
          assert IsHead(m, c);
          assert IsHead(m, a);
          TwoMembers(Heads(m), a, c);
          assert false;
        }
      }
    } else {
      var a :| a in Heads(m);
      assert Heads(m) != {a};
      var b :| b in Heads(m) && b != a;
      assert m[a].start != m[b].start;
      var early, late := if m[a].start < m[b].start then a else b, if m[a].start < m[b].start then b else a;
      assert !Covered(m, m[late].start - 1);
      assert m[early].start <= m[late].start - 1 < m[late].end;
    }
  }

  /** In a listing by start time, one block means that each booking ends where the next one starts. */
  lemma OneBlockIsChained(rows: Table, barberId: string, date: int, bs: seq<Booking>)
    requires Lists(bs, rows, barberId, date, false)
    requires Disjoint(DaySpans(rows, barberId, date)) && |Heads(DaySpans(rows, barberId, date))| <= 1
    ensures forall i :: 0 <= i < |bs| - 1 ==> bs[i].timeEnd == bs[i + 1].timeStart
  {
    var m := DaySpans(rows, barberId, date);
    forall i | 0 <= i < |bs| - 1
      ensures bs[i].timeEnd == bs[i + 1].timeStart
    {
      var next := bs[i + 1].id;
      FirstListedIsHead(rows, barberId, date, bs);
      if IsHead(m, next) {
        TwoMembers(Heads(m), bs[0].id, next);
        assert false;
      }
      var k :| k in m && m[k].end == m[next].start;
      PredecessorEndsThere(rows, barberId, date, bs, i, k);
    }
  }

  lemma FirstListedIsHead(rows: Table, barberId: string, date: int, bs: seq<Booking>)
    requires Lists(bs, rows, barberId, date, false) && bs != []
    requires Disjoint(DaySpans(rows, barberId, date))
    ensures bs[0].id in DaySpans(rows, barberId, date) && IsHead(DaySpans(rows, barberId, date), bs[0].id)
  {
    var m := DaySpans(rows, barberId, date);
    forall k | k in m
      ensures m[k].end != m[bs[0].id].start
    {
      assert rows[k] in bs;
    }
  }

  /** Whatever ends where the next listed booking starts is the booking listed before it. */
  lemma PredecessorEndsThere(rows: Table, barberId: string, date: int, bs: seq<Booking>, i: nat, k: string)
    requires Lists(bs, rows, barberId, date, false) && i + 1 < |bs|
    requires Disjoint(DaySpans(rows, barberId, date))
    requires k in DaySpans(rows, barberId, date) && DaySpans(rows, barberId, date)[k].end == bs[i + 1].timeStart
    ensures bs[i].timeEnd == bs[i + 1].timeStart
  {
    var m := DaySpans(rows, barberId, date);
    var here, next := bs[i].id, bs[i + 1].id;
    assert here in m && next in m;
    assert m[here].start < m[here].end <= m[next].start < m[next].end;
    assert rows[k] in bs;
    var l :| 0 <= l < |bs| && bs[l] == rows[k];
    assert l <= i + 1;
  }

  lemma HeadsAmongOld(m: Busy, x: string, s: Span)
    requires x !in m
    ensures Heads(m[x := s]) <= Heads(m) + {x}
  {
    var m' := m[x := s];
    forall id | id in Heads(m') && id != x
      ensures id in Heads(m)
    {
      forall k | k in m
        ensures m[k].end != m[id].start
      {
        assert m'[k] == m[k] && m'[id] == m[id];
      }
    }
  }

  lemma ClearSpanFits(m: Busy, x: string, s: Span)
    requires Disjoint(m) && x !in m && s.start < s.end
    requires forall k :: k in m ==> !Overlaps(s.start, s.end, m[k].start, m[k].end)
    ensures Disjoint(m[x := s])
  {
  }

  /** The span before which nothing ends is a head, and stops being one when s runs into it. */
  lemma SpanTakesOverHead(m: Busy, x: string, s: Span, k: string)
    requires Disjoint(m) && x !in m && s.start < s.end
    requires forall j :: j in m ==> !Overlaps(s.start, s.end, m[j].start, m[j].end)
    requires k in m && m[k].start == s.end
    ensures k in Heads(m) && k !in Heads(m[x := s])
  {
    forall j | j in m
      ensures m[j].end != m[k].start
    {
      assert !Overlaps(s.start, s.end, m[j].start, m[j].end);
    }
    assert m[x := s][x].end == m[x := s][k].start;
  }

  /** A span that touches the day and overlaps nothing never adds a block. */
  lemma TouchingSpanJoins(m: Busy, x: string, s: Span)
    requires Disjoint(m) && x !in m && s.start < s.end
    requires forall k :: k in m ==> !Overlaps(s.start, s.end, m[k].start, m[k].end)
    requires exists k :: k in m && (m[k].end == s.start || m[k].start == s.end)
    ensures Disjoint(m[x := s]) && |Heads(m[x := s])| <= |Heads(m)|
  {
    var m' := m[x := s];
    ClearSpanFits(m, x, s);
    HeadsAmongOld(m, x, s);
    var k :| k in m && (m[k].end == s.start || m[k].start == s.end);
    if m[k].end == s.start {
      assert m'[k].end == m'[x].start;
      assert x !in Heads(m');
      SubsetSize(Heads(m'), Heads(m));
    } else {
      SpanTakesOverHead(m, x, s, k);
      SubsetSize(Heads(m'), Heads(m) - {k} + {x});
    }
  }

  /** A span after the end of the whole day adds exactly one block. */
  lemma LateSpanOpensBlock(m: Busy, x: string, s: Span)
    requires Disjoint(m) && x !in m && s.start < s.end
    requires forall k :: k in m ==> m[k].end < s.start
    ensures Disjoint(m[x := s]) && |Heads(m[x := s])| == |Heads(m)| + 1
  {
    var m' := m[x := s];
    forall id | id in m
      ensures IsHead(m', id) <==> IsHead(m, id)
    {
      assert m'[id] == m[id] && m'[x].end > m[id].start;
      if IsHead(m', id) {
        forall k | k in m
          ensures m[k].end != m[id].start
        {
          assert m'[k] == m[k];
        }
      }
    }
    assert IsHead(m', x);
    assert Heads(m') == Heads(m) + {x};
  }

  // ---- one accepted compact slot ----

  lemma DayIsDisjoint(rows: Table, barberId: string, date: int)
    requires DayDisjoint(rows, barberId, date)
    ensures Disjoint(DaySpans(rows, barberId, date))
  {
    var m := DaySpans(rows, barberId, date);
    forall i, j | i in m && j in m && i != j
      ensures !Overlaps(m[i].start, m[i].end, m[j].start, m[j].end)
    {
      assert !Clash(rows[i], rows[j]);
    }
  }

  lemma AcceptedSpan(rows: Table, b: Booking)
    requires CreateOutcome(rows, b) == Ok && Active(b.status)
    ensures var m := DaySpans(rows, b.barberId, b.date);
            var s := Span(b.timeStart, b.timeEnd);
            && b.id !in m
            && DaySpans(rows[b.id := b], b.barberId, b.date) == m[b.id := s]
            && forall k :: k in m ==> !Overlaps(s.start, s.end, m[k].start, m[k].end)
  {
    var m := DaySpans(rows, b.barberId, b.date);
    forall k | k in m
      ensures !Overlaps(b.timeStart, b.timeEnd, m[k].start, m[k].end)
    {
      assert OnDay(rows[k], b.barberId, b.date);
    }
  }

  /** Spans adjacent in the listing are adjacent in the day map, and the other way round. */
  lemma ListingTouches(bs: seq<Booking>, rows: Table, barberId: string, date: int, t: int, window: int)
    requires WellKeyed(rows) && Lists(bs, rows, barberId, date, false) && Adjacent(bs, t, window)
    ensures var m := DaySpans(rows, barberId, date);
            exists k :: k in m && (m[k].end == t || m[k].start == t + window)
  {
    var i :| 0 <= i < |bs| && (t == bs[i].timeStart - window || t == bs[i].timeEnd);
    assert bs[i].id in DaySpans(rows, barberId, date);
  }

  lemma ListingCoversDay(bs: seq<Booking>, rows: Table, barberId: string, date: int, bound: int)
    requires Lists(bs, rows, barberId, date, false)
    requires forall i :: 0 <= i < |bs| ==> bs[i].timeEnd < bound
    ensures forall k :: k in DaySpans(rows, barberId, date) ==> DaySpans(rows, barberId, date)[k].end < bound
  {
    forall k | k in DaySpans(rows, barberId, date)
      ensures DaySpans(rows, barberId, date)[k].end < bound
    {
      assert rows[k] in bs;
    }
  }

  /** Booking an offered compact slot adds a block exactly on the full-grid branch, that is on an
      empty day or, today, after the last booking is over. Otherwise the day never gets more fragmented. */
  lemma CompactSlotBlocks(rows: Table, barberId: string, date: int, days: seq<WorkDay>, now: int,
                          bs: seq<Booking>, window: int, t: int, b: Booking)
    requires WellKeyed(rows) && DayDisjoint(rows, barberId, date)
    requires Lists(bs, rows, barberId, date, false) && DayHours(days) && window > 0
    requires HoursOn(days, date, now, true, SLOT_STEP).Some?
    requires t in CompactStarts(bs, HoursOn(days, date, now, true, SLOT_STEP).value, IsToday(date, now), SLOT_STEP, window)
    requires Requests(b, barberId, t, window) && CreateOutcome(rows, b) == Ok && b.status == Pending
    ensures var h := HoursOn(days, date, now, true, SLOT_STEP).value;
            var m, m' := DaySpans(rows, barberId, date), DaySpans(rows[b.id := b], barberId, date);
            && Disjoint(m')
            && (FullGrid(bs, h, IsToday(date, now)) ==> |Heads(m')| == |Heads(m)| + 1)
            && (!FullGrid(bs, h, IsToday(date, now)) ==> |Heads(m')| <= |Heads(m)|)
  {
    var h := HoursOn(days, date, now, true, SLOT_STEP).value;
    FittingDay(bs, rows, barberId, date, days, now, window, t);
    StartAddsBlock(rows, barberId, date, h, IsToday(date, now), bs, window, t, b);
  }

  lemma StartAddsBlock(rows: Table, barberId: string, date: int, h: Hours, today: bool,
                       bs: seq<Booking>, window: int, t: int, b: Booking)
    requires WellKeyed(rows) && DayDisjoint(rows, barberId, date)
    requires Lists(bs, rows, barberId, date, false) && window > 0
    requires t in CompactStarts(bs, h, today, SLOT_STEP, window)
    requires Requests(b, barberId, t, window) && b.date == date && CreateOutcome(rows, b) == Ok && b.status == Pending
    ensures var m, m' := DaySpans(rows, barberId, date), DaySpans(rows[b.id := b], barberId, date);
            && Disjoint(m')
            && (FullGrid(bs, h, today) ==> |Heads(m')| == |Heads(m)| + 1)
            && (!FullGrid(bs, h, today) ==> |Heads(m')| <= |Heads(m)|)
  {
    var m := DaySpans(rows, barberId, date);
    DayIsDisjoint(rows, barberId, date);
    AcceptedSpan(rows, b);
    if FullGrid(bs, h, today) {
      GridSlotComesLast(bs, rows, barberId, date, h, today, window, t);
    } else {
      assert Adjacent(bs, t, window);
      ListingTouches(bs, rows, barberId, date, t, window);
    }
    NewSpanBlocks(m, b.id, Span(t, t + window), FullGrid(bs, h, today));
  }

  /** The two ways a compact slot relates to the day: after all of it, or touching some booking. */
  lemma NewSpanBlocks(m: Busy, x: string, s: Span, late: bool)
    requires Disjoint(m) && x !in m && s.start < s.end
    requires forall k :: k in m ==> !Overlaps(s.start, s.end, m[k].start, m[k].end)
    requires late ==> forall k :: k in m ==> m[k].end < s.start
    requires !late ==> exists k :: k in m && (m[k].end == s.start || m[k].start == s.end)
    ensures Disjoint(m[x := s])
    ensures late ==> |Heads(m[x := s])| == |Heads(m)| + 1
    ensures !late ==> |Heads(m[x := s])| <= |Heads(m)|
  {
    if late {
      LateSpanOpensBlock(m, x, s);
    } else {
      TouchingSpanJoins(m, x, s);
    }
  }

  /** On the full-grid branch every start lies after the end of every booking of the day. */
  lemma GridSlotComesLast(bs: seq<Booking>, rows: Table, barberId: string, date: int,
                          h: Hours, today: bool, window: int, t: int)
    requires DayDisjoint(rows, barberId, date) && Lists(bs, rows, barberId, date, false)
    requires FullGrid(bs, h, today) && t in CompactStarts(bs, h, today, SLOT_STEP, window)
    ensures forall k :: k in DaySpans(rows, barberId, date) ==> DaySpans(rows, barberId, date)[k].end < t
  {
    BeforeOrigin(h.start, 2 * SLOT_STEP);
    if bs != [] {
      LastListedEndsLast(bs, rows, barberId, date);
    }
    ListingCoversDay(bs, rows, barberId, date, t);
  }

  lemma FittingDay(bs: seq<Booking>, rows: Table, barberId: string, date: int, days: seq<WorkDay>, now: int,
                   window: int, t: int)
    requires WellKeyed(rows) && DayDisjoint(rows, barberId, date)
    requires Lists(bs, rows, barberId, date, false) && DayHours(days) && window > 0
    requires HoursOn(days, date, now, true, SLOT_STEP).Some?
    requires t in CompactStarts(bs, HoursOn(days, date, now, true, SLOT_STEP).value, IsToday(date, now), SLOT_STEP, window)
    ensures UtcDay(t) == date
  {
    var h := HoursOn(days, date, now, true, SLOT_STEP).value;
    CompactStartIsClear(bs, rows, barberId, date, h, IsToday(date, now), SLOT_STEP, window, t);
    FittingStartIsOnDay(days, date, now, true, t, window);
  }
}
