/**
 From booking calls to visit counters: the events of overlapping calls, delivered in any order and any
 number of times, count every booking of a client that is announced as completed once. That is every
 booking ever completed unless one was deleted before its completion was announced.
 */
module VisitsEndToEnd {
  import opened BookingStore
  import opened BookingService
  import opened ConcurrentCalls
  import opened CompletionEvents
  import opened Retry
  import opened ClientVisits

  // ---- whose booking an event is about ----

  /** No two create calls were given the same id. */
  ghost predicate DistinctIds(moves: seq<Move>) {
    forall i, j :: 0 <= i < j < |moves| && Creates(moves[i]) && Creates(moves[j]) ==> moves[i].op.newId != moves[j].op.newId
  }

  predicate Creates(m: Move) {
    m.Check? && m.op.Create?
  }

  /** Some create call asked for the booking with this id, for this barber and phone. */
  ghost predicate HasOrigin(moves: seq<Move>, id: string, k: Key) {
    exists i :: 0 <= i < |moves| && Creates(moves[i]) && moves[i].op.newId == id
                && k == (moves[i].op.req.barberId, moves[i].op.req.clientPhone)
  }

  ghost predicate Traced(moves: seq<Move>, b: Booking) {
    HasOrigin(moves, b.id, (b.barberId, b.clientPhone))
  }

  ghost predicate TracedFlight(moves: seq<Move>, f: Flight) {
    match f
    case Checked(op) => op.Create? ==> HasOrigin(moves, op.newId, (op.req.barberId, op.req.clientPhone))
    case Stored(_, _) => true
    case Loaded(b) => Traced(moves, b)
  }

  /** Rows, calls under way and events all carry the client of the call that created the booking. */
  ghost predicate AllTraced(moves: seq<Move>, w: World) {
    && (forall id :: id in w.rows ==> Traced(moves, w.rows[id]))
    && (forall c :: c in w.calls ==> TracedFlight(moves, w.calls[c]))
    && (forall e :: e in w.published ==> HasOrigin(moves, e.bookingId, KeyOf(e)))
  }

  lemma CommitKeepsTraced(moves: seq<Move>, w: World, op: Op)
    requires AllTraced(moves, w) && TracedFlight(moves, Checked(op)) && TxRow(w.rows, op).Some?
    ensures Traced(moves, TxRow(w.rows, op).value) && TracedFlight(moves, FlightOf(op, TxRow(w.rows, op).value))
  {
    var b := TxRow(w.rows, op).value;
    if !op.Create? {
      assert Traced(moves, w.rows[op.id]);
      assert b.id == w.rows[op.id].id && b.barberId == w.rows[op.id].barberId && b.clientPhone == w.rows[op.id].clientPhone;
    }
  }

  lemma MoveKeepsTraced(moves: seq<Move>, w: World, m: Move)
    requires AllTraced(moves, w) && m in moves
    ensures AllTraced(moves, Next(w, m))
  {
    match m
    case Check(call, op) =>
      if op.Create? {
        var i :| 0 <= i < |moves| && moves[i] == m;
        assert Creates(moves[i]);
        assert HasOrigin(moves, op.newId, (op.req.barberId, op.req.clientPhone));
      }
    case Commit(call) =>
      if call in w.calls && w.calls[call].Checked? && TxRow(w.rows, w.calls[call].op).Some? {
        CommitKeepsTraced(moves, w, w.calls[call].op);
      }
    case Reload(call) =>
      if call in w.calls && w.calls[call].Stored? && w.calls[call].id in w.rows {
        assert Traced(moves, w.rows[w.calls[call].id]);
      }
    case Publish(call, now) =>
      if call in w.calls && w.calls[call].Loaded? {
        assert TracedFlight(moves, w.calls[call]);
      }
  }

  lemma {:induction false} RunKeepsTraced(ws: seq<World>, moves: seq<Move>, n: nat)
    requires IsPlay(ws, moves) && ws[0] == IDLE && n < |ws|
    ensures AllTraced(moves, ws[n])
  {
    if n == 0 {
    } else {
      RunKeepsTraced(ws, moves, n - 1);
      MoveKeepsTraced(moves, ws[n - 1], moves[n - 1]);
      assert ws[n - 1 + 1] == Next(ws[n - 1], moves[n - 1]);
    }
  }

  /** All events of a booking name the same client. */
  lemma EventsNameOneClient(ws: seq<World>, moves: seq<Move>, n: nat, d: Event, e: Event)
    requires IsPlay(ws, moves) && ws[0] == IDLE && DistinctIds(moves) && n < |ws|
    requires d in ws[n].published && e in ws[n].published && d.bookingId == e.bookingId
    ensures KeyOf(d) == KeyOf(e)
  {
    RunKeepsTraced(ws, moves, n);
    OneOrigin(moves, d.bookingId, KeyOf(d), KeyOf(e));
  }

  // ---- deliveries ----

  // One fetched message, with the outcomes of the attempts to process it.
  datatype Delivery = Delivery(event: Event, newId: string, first: seq<Attempt>, second: seq<Attempt>,
                               firstCancel: nat, secondCancel: nat)

  /** The writes a consumer of the log can have made: clients are ensured for any event and visits
      counted for completed ones. Staff may edit clients but deletes none. */
  ghost predicate FromLog(writes: seq<Write>, log: seq<Event>) {
    forall i :: 0 <= i < |writes| ==> WriteFromLog(writes[i], log)
  }

  ghost predicate WriteFromLog(w: Write, log: seq<Event>) {
    match w
    case Ensure(e, _) => e in log
    case Count(e, _) => e in log && e.status == ProtoCompleted
    case Edit(_, _, _) => true
    case Remove(_, _) => false
  }

  ghost predicate IsCounted(writes: seq<Write>, e: Event) {
    exists i :: 0 <= i < |writes| && writes[i].Count? && writes[i].event == e
  }

  lemma MoreWrites(writes: seq<Write>, more: seq<Write>, log: seq<Event>)
    requires FromLog(writes, log) && FromLog(more, log)
    ensures FromLog(writes + more, log)
    ensures forall e :: IsCounted(writes, e) || IsCounted(more, e) ==> IsCounted(writes + more, e)
  {
    var all := writes + more;
    forall e | IsCounted(writes, e) || IsCounted(more, e)
      ensures IsCounted(all, e)
    {
      if IsCounted(writes, e) {
        var i :| 0 <= i < |writes| && writes[i].Count? && writes[i].event == e;
        assert all[i] == writes[i];
      } else {
        var i :| 0 <= i < |more| && more[i].Count? && more[i].event == e;
        assert all[|writes| + i] == more[i];
      }
    }
  }

  /** The consumer's loop over the messages it fetches: any events of the log, in any order, repeated at
      will. Messages that were given up are reported as failed. */
  method ConsumeAll(repo: ClientRepo, deliveries: seq<Delivery>, ghost log: seq<Event>) returns (failed: seq<Event>)
    requires repo.Valid() && FromLog(repo.history, log)
    requires forall i :: 0 <= i < |deliveries| ==> deliveries[i].event in log
    requires forall i :: 0 <= i < |deliveries| ==>
                           |deliveries[i].first| == MAX_RETRIES && |deliveries[i].second| == MAX_RETRIES
    modifies repo
    ensures repo.Valid() && FromLog(repo.history, log) && old(repo.history) <= repo.history
    ensures forall i :: 0 <= i < |deliveries| && deliveries[i].event.status == ProtoCompleted ==>
                          IsCounted(repo.history, deliveries[i].event) || deliveries[i].event in failed
  {
    failed := [];
    for n := 0 to |deliveries|
      invariant repo.Valid() && FromLog(repo.history, log) && old(repo.history) <= repo.history
      invariant forall i :: 0 <= i < n && deliveries[i].event.status == ProtoCompleted ==>
                  IsCounted(repo.history, deliveries[i].event) || deliveries[i].event in failed
    {
      var ok := ConsumeOne(repo, deliveries[n], log);
      if !ok {
        failed := failed + [deliveries[n].event];
      }
    }
  }

  method ConsumeOne(repo: ClientRepo, d: Delivery, ghost log: seq<Event>) returns (ok: bool)
    requires repo.Valid() && FromLog(repo.history, log) && d.event in log
    requires |d.first| == MAX_RETRIES && |d.second| == MAX_RETRIES
    modifies repo
    ensures repo.Valid() && FromLog(repo.history, log) && old(repo.history) <= repo.history
    ensures forall e :: IsCounted(old(repo.history), e) ==> IsCounted(repo.history, e)
    ensures ok && d.event.status == ProtoCompleted ==> IsCounted(repo.history, d.event)
  {
    ghost var before := repo.history;
    ghost var ensured, counts;
    ok, ensured, counts := Process(repo, d.event, d.newId, d.first, d.second, d.firstCancel, d.secondCancel);
    assert FromLog(ensured, log);
    MoreWrites(before, ensured, log);
    assert FromLog(counts, log);
    MoreWrites(before + ensured, counts, log);
    assert counts != [] ==> counts[0].Count? && counts[0].event == d.event;
  }

  // ---- exactly once ----

  /** The bookings of the client that the log has as completed. */
  ghost function CompletedInLog(log: seq<Event>, k: Key): set<string> {
    set i | 0 <= i < |log| && log[i].status == ProtoCompleted && KeyOf(log[i]) == k :: log[i].bookingId
  }

  lemma LogIsSettled(ws: seq<World>, moves: seq<Move>, n: nat, writes: seq<Write>)
    requires IsPlay(ws, moves) && ws[0] == IDLE && DistinctIds(moves) && n < |ws|
    requires FromLog(writes, ws[n].published)
    ensures Settled(writes)
  {
    forall i, j | 0 <= i < |writes| && 0 <= j < |writes| && writes[i].Count? && writes[j].Count?
                  && writes[i].event.bookingId == writes[j].event.bookingId
      ensures KeyOf(writes[i].event) == KeyOf(writes[j].event)
    {
      assert WriteFromLog(writes[i], ws[n].published) && WriteFromLog(writes[j], ws[n].published);
      EventsNameOneClient(ws, moves, n, writes[i].event, writes[j].event);
    }
    forall i | 0 <= i < |writes|
      ensures !writes[i].Remove?
    {
      assert WriteFromLog(writes[i], ws[n].published);
    }
  }

  lemma CountedAreCompleted(writes: seq<Write>, log: seq<Event>, k: Key)
    requires FromLog(writes, log)
    ensures CompletedBookings(writes, k) <= CompletedInLog(log, k)
  {
    forall b | b in CompletedBookings(writes, k)
      ensures b in CompletedInLog(log, k)
    {
      var i: nat :| i < |writes| && writes[i].Count? && KeyOf(writes[i].event) == k && writes[i].event.bookingId == b;
      assert WriteFromLog(writes[i], log);
      var j :| 0 <= j < |log| && log[j] == writes[i].event;
    }
  }

  /** Bookings are made, moved and completed by overlapping calls under fresh ids; their events are
      consumed in any order, repeated and interrupted. A client's counter is then the number of its
      distinct bookings with a processed completed event, and once every completed event was counted at
      least once, the number of its bookings that the log has as completed. */
  lemma {:induction false} ExactlyOnceEndToEnd(ws: seq<World>, moves: seq<Move>, n: nat, writes: seq<Write>, k: Key)
    requires IsPlay(ws, moves) && ws[0] == IDLE && DistinctIds(moves) && n < |ws|
    requires FromLog(writes, ws[n].published)
    ensures VisitsOf(TablesAfter(writes, |writes|), k) == |CompletedBookings(writes, k)|
    ensures CompletedBookings(writes, k) <= CompletedInLog(ws[n].published, k)
    ensures (forall e :: e in ws[n].published && e.status == ProtoCompleted ==> IsCounted(writes, e)) ==>
              VisitsOf(TablesAfter(writes, |writes|), k) == |CompletedInLog(ws[n].published, k)|
  {
    var log := ws[n].published;
    LogIsSettled(ws, moves, n, writes);
    ExactlyOnce(writes, k);
    CountedAreCompleted(writes, log, k);
    if forall e :: e in log && e.status == ProtoCompleted ==> IsCounted(writes, e) {
      forall b | b in CompletedInLog(log, k)
        ensures b in CompletedBookings(writes, k)
      {
        var j :| 0 <= j < |log| && log[j].status == ProtoCompleted && KeyOf(log[j]) == k && log[j].bookingId == b;
        assert IsCounted(writes, log[j]);
        var i :| 0 <= i < |writes| && writes[i].Count? && writes[i].event == log[j];
      }
      assert CompletedBookings(writes, k) == CompletedInLog(log, k);
    }
  }

  // ---- the log and the table ----

  lemma OneOrigin(moves: seq<Move>, id: string, k: Key, l: Key)
    requires DistinctIds(moves) && HasOrigin(moves, id, k) && HasOrigin(moves, id, l)
    ensures k == l
  {
    var i :| 0 <= i < |moves| && Creates(moves[i]) && moves[i].op.newId == id
             && k == (moves[i].op.req.barberId, moves[i].op.req.clientPhone);
    var j :| 0 <= j < |moves| && Creates(moves[j]) && moves[j].op.newId == id
             && l == (moves[j].op.req.barberId, moves[j].op.req.clientPhone);
    assert i < j || j < i || i == j;
  }

  /** An announced completion is in the log under the client that the booking was created for. */
  lemma AnnouncedInLog(ws: seq<World>, moves: seq<Move>, n: nat, id: string, k: Key)
    requires IsPlay(ws, moves) && ws[0] == IDLE && DistinctIds(moves) && n < |ws|
    requires Announced(ws[n].published, id) && HasOrigin(moves, id, k)
    ensures id in CompletedInLog(ws[n].published, k)
  {
    var e :| e in ws[n].published && e.bookingId == id && e.status == ProtoCompleted;
    RunKeepsTraced(ws, moves, n);
    OneOrigin(moves, id, k, KeyOf(e));
    var i :| 0 <= i < |ws[n].published| && ws[n].published[i] == e;
  }

  /** A booking that is completed in the table, with no call on it under way, is in the log as completed. */
  lemma CompletedRowIsInLog(ws: seq<World>, moves: seq<Move>, n: nat, id: string)
    requires IsPlay(ws, moves) && ws[0] == IDLE && DistinctIds(moves) && n < |ws|
    requires id in ws[n].rows && ws[n].rows[id].status == Completed && !Busy(ws[n], id)
    ensures id in CompletedInLog(ws[n].published, (ws[n].rows[id].barberId, ws[n].rows[id].clientPhone))
  {
    CompletedRowIsCarried(ws, moves, n, id);
    forall c | c in ws[n].calls
      ensures !Carries(ws[n].calls[c], id)
    {
      assert !Concerns(ws[n].calls[c], id);
    }
    PlayKeepsKeys(ws, moves, n);
    RunKeepsTraced(ws, moves, n);
    assert Traced(moves, ws[n].rows[id]);
    AnnouncedInLog(ws, moves, n, id, (ws[n].rows[id].barberId, ws[n].rows[id].clientPhone));
  }

  /** The client's bookings that were completed in the table at some time. */
  ghost function CompletedEver(ws: seq<World>, moves: seq<Move>, n: nat, k: Key): set<string>
    requires n < |ws|
  {
    set id | id in EverCompleted(ws, n) && HasOrigin(moves, id, k)
  }

  /** Only bookings that were completed are in the log as completed. */
  lemma LogHasOnlyCompletions(ws: seq<World>, moves: seq<Move>, n: nat, k: Key)
    requires IsPlay(ws, moves) && ws[0] == IDLE && n < |ws|
    ensures CompletedInLog(ws[n].published, k) <= CompletedEver(ws, moves, n, k)
  {
    RunKeepsFromCompletions(ws, moves, n);
    RunKeepsTraced(ws, moves, n);
    forall id | id in CompletedInLog(ws[n].published, k)
      ensures id in CompletedEver(ws, moves, n, k)
    {
      var i :| 0 <= i < |ws[n].published| && ws[n].published[i].status == ProtoCompleted
               && KeyOf(ws[n].published[i]) == k && ws[n].published[i].bookingId == id;
      assert ws[n].published[i] in ws[n].published;
    }
  }

  /** If no deletion swallowed a completion and none is still to be announced, all of them are. */
  lemma LogHasAllCompletions(ws: seq<World>, moves: seq<Move>, n: nat, k: Key)
    requires IsPlay(ws, moves) && ws[0] == IDLE && DistinctIds(moves) && n < |ws|
    requires forall i :: 0 <= i < |moves| ==> !LosesCompletion(ws[i], moves[i])
    requires forall c, id :: c in ws[n].calls ==> !Carries(ws[n].calls[c], id)
    ensures CompletedEver(ws, moves, n, k) <= CompletedInLog(ws[n].published, k)
  {
    CompletionsAreAnnouncedExactly(ws, moves);
    forall id | id in CompletedEver(ws, moves, n, k)
      ensures id in CompletedInLog(ws[n].published, k)
    {
      assert Carried(ws[n], id);
      AnnouncedInLog(ws, moves, n, id, k);
    }
  }

  /** With all completions announced and all their events counted, a client's counter is the number of its
      bookings that were ever completed, deleted ones included. */
  lemma VisitsCountCompletions(ws: seq<World>, moves: seq<Move>, n: nat, writes: seq<Write>, k: Key)
    requires IsPlay(ws, moves) && ws[0] == IDLE && DistinctIds(moves) && n < |ws|
    requires forall i :: 0 <= i < |moves| ==> !LosesCompletion(ws[i], moves[i])
    requires forall c, id :: c in ws[n].calls ==> !Carries(ws[n].calls[c], id)
    requires FromLog(writes, ws[n].published)
    requires forall e :: e in ws[n].published && e.status == ProtoCompleted ==> IsCounted(writes, e)
    ensures VisitsOf(TablesAfter(writes, |writes|), k) == |CompletedEver(ws, moves, n, k)|
  {
    ExactlyOnceEndToEnd(ws, moves, n, writes, k);
    LogHasOnlyCompletions(ws, moves, n, k);
    LogHasAllCompletions(ws, moves, n, k);
    assert CompletedInLog(ws[n].published, k) == CompletedEver(ws, moves, n, k);
  }
}
