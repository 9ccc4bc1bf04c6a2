/**
 The clock in the events. Each event carries the reading of the call that published it; readings that
 advance by the second from change to change of a booking are all that analytics needs.
 */
module EventClock {
  import opened Wrappers
  import opened Instants
  import opened BookingStore
  import opened BookingService
  import opened BookingSafety
  import opened AnalyticsReplica
  import opened ConcurrentCalls

  /** Any two events of one booking are published in different seconds, in order. */
  ghost predicate LogTicks(log: seq<Event>) {
    forall i, j :: 0 <= i < j < |log| && log[i].bookingId == log[j].bookingId ==>
                     Seconds(log[i].occurredAt) < Seconds(log[j].occurredAt)
  }

  lemma TickingLogIsNewest(log: seq<Event>, id: string)
    requires LogTicks(log) && LastEvent(log, id).Some?
    ensures LastIsNewest(log, id)
  {
    IncreasingSecondsSuffice(log, id);
  }

  /** An event later than all others of its booking keeps the log ticking. */
  lemma TicksOneMore(log: seq<Event>, log': seq<Event>)
    requires LogTicks(log) && |log'| == |log| + 1 && log'[..|log|] == log
    requires forall i :: 0 <= i < |log| && log[i].bookingId == log'[|log|].bookingId ==>
                           Seconds(log[i].occurredAt) < Seconds(log'[|log|].occurredAt)
    ensures LogTicks(log')
  {
    assert forall i :: 0 <= i < |log| ==> log'[i] == log'[..|log|][i];
  }

  /** The row of the store shows the booking: all its columns, times to the second it falls in. */
  predicate Shows(row: Row, b: Booking) {
    && row.bookingId == b.id && row.barberId == b.barberId
    && row.clientPhone == b.clientPhone && row.clientName == b.clientName
    && row.serviceId == b.serviceId && row.serviceName == b.serviceName && row.price == b.price
    && row.startTime * SECOND <= b.timeStart < (row.startTime + 1) * SECOND
    && row.endTime * SECOND <= b.timeEnd < (row.endTime + 1) * SECOND
    && (row.status == Completed <==> b.status == Completed)
    && (row.status == Cancelled <==> b.status == Cancelled)
    && (row.status == NoShow <==> b.status == NoShow)
    && (row.status == Pending <==> b.status == Pending || b.status.OtherStatus?)
  }

  lemma MirrorShows(b: Booking, at: int)
    ensures Shows(Mirror(b, at), b) && Mirror(b, at).occurredAt == at
  {
  }

  /** What is stored for an event keeps the second of its clock reading as the version. */
  lemma VersionIsSecond(e: Event)
    ensures ToRow(e).occurredAt * SECOND <= e.occurredAt < (ToRow(e).occurredAt + 1) * SECOND
  {
  }

  // ---- calls that run one at a time ----

  /** The booking an operation is about. */
  function Target(op: Op): string {
    if op.Create? then op.newId else op.id
  }

  /** A step appends at most one event, for its booking and with its clock reading. */
  lemma StepPublishesNow(st: State, op: Op)
    requires WellKeyed(st.rows)
    ensures var log, log' := st.published, After(st, op).published;
            log' == log
            || (!op.Delete? && |log'| == |log| + 1 && log'[..|log|] == log
                && log'[|log|].bookingId == Target(op) && log'[|log|].occurredAt == op.now)
  {
    StepStoresAccepted(st, op);
  }

  /** The readings of operations on one booking advance by the second. */
  ghost predicate OpsTick(ops: seq<Op>) {
    forall i, j :: 0 <= i < j < |ops| && !ops[i].Delete? && !ops[j].Delete? && Target(ops[i]) == Target(ops[j]) ==>
                     Seconds(ops[i].now) < Seconds(ops[j].now)
  }

  /** The event was published by one of the first n operations. */
  ghost predicate FromOp(ops: seq<Op>, n: nat, e: Event) {
    exists m :: 0 <= m < n && m < |ops| && !ops[m].Delete? && e.bookingId == Target(ops[m]) && e.occurredAt == ops[m].now
  }

  lemma {:induction false} RunTicks(states: seq<State>, ops: seq<Op>, n: nat)
    requires IsRun(states, ops) && n < |states| && states[0].published == [] && OpsTick(ops)
    ensures LogTicks(states[n].published)
    ensures forall i :: 0 <= i < |states[n].published| ==> FromOp(ops, n, states[n].published[i])
  {
    if n == 0 {
    } else {
      RunTicks(states, ops, n - 1);
      RunKeepsShape(states, ops, n - 1);
      assert states[n - 1 + 1] == After(states[n - 1], ops[n - 1]);
      StepPublishesNow(states[n - 1], ops[n - 1]);
      LogFromMoreOps(ops, n - 1, states[n - 1].published, states[n].published);
    }
  }

  /** One more operation, which published at most one event, for its booking and with its reading. */
  lemma LogFromMoreOps(ops: seq<Op>, n: nat, log: seq<Event>, log': seq<Event>)
    requires n < |ops| && OpsTick(ops) && LogTicks(log)
    requires forall i :: 0 <= i < |log| ==> FromOp(ops, n, log[i])
    requires log' == log
             || (!ops[n].Delete? && |log'| == |log| + 1 && log'[..|log|] == log
                 && log'[|log|].bookingId == Target(ops[n]) && log'[|log|].occurredAt == ops[n].now)
    ensures LogTicks(log') && forall i :: 0 <= i < |log'| ==> FromOp(ops, n + 1, log'[i])
  {
    forall i | 0 <= i < |log|
      ensures FromOp(ops, n + 1, log[i])
      ensures !ops[n].Delete? && log[i].bookingId == Target(ops[n]) ==> Seconds(log[i].occurredAt) < Seconds(ops[n].now)
    {
      assert FromOp(ops, n, log[i]);
      var m :| 0 <= m < n && m < |ops| && !ops[m].Delete?
               && log[i].bookingId == Target(ops[m]) && log[i].occurredAt == ops[m].now;
    }
    if log' != log {
      TicksOneMore(log, log');
      assert FromOp(ops, n + 1, log'[|log|]);
      assert forall i :: 0 <= i < |log| ==> log'[i] == log'[..|log|][i];
    }
  }

  /** From the empty service on: if the clock advances by the second between changes of a booking, then
      analytics shows its row as soon as all its events have arrived, in whatever order. */
  lemma ReplicaShowsBooking(states: seq<State>, ops: seq<Op>, n: nat, id: string, store: seq<Row>)
    requires IsRun(states, ops) && n < |states| && states[0] == EMPTY && OpsTick(ops)
    requires id in states[n].rows && Delivered(states[n].published, store, id)
    ensures Latest(store, id).Some? && Shows(Latest(store, id).value, states[n].rows[id])
  {
    RunTicks(states, ops, n);
    if LastEvent(states[n].published, id).Some? {
      TickingLogIsNewest(states[n].published, id);
    }
    ReplicaMirrorsBooking(states, ops, n, id, store);
    MirrorShows(states[n].rows[id], Latest(store, id).value.occurredAt);
  }

  // ---- overlapping calls ----

  /** The move publishes an event of this booking. */
  predicate PublishesFor(w: World, m: Move, id: string) {
    m.Publish? && m.call in w.calls && w.calls[m.call].Loaded? && w.calls[m.call].b.id == id
  }

  /** A publishing move stamps its own clock reading on the event; no other move touches the log. */
  lemma MovePublishesNow(w: World, m: Move)
    ensures var log, log' := w.published, Next(w, m).published;
            log' == log
            || (m.Publish? && |log'| == |log| + 1 && log'[..|log|] == log
                && PublishesFor(w, m, log'[|log|].bookingId) && log'[|log|].occurredAt == m.now)
  {
  }

  /** The readings under which events of one booking are published advance by the second. */
  ghost predicate PublishesTick(ws: seq<World>, moves: seq<Move>)
    requires |ws| == |moves| + 1
  {
    forall i, j, id :: 0 <= i < j < |moves| && PublishesFor(ws[i], moves[i], id) && PublishesFor(ws[j], moves[j], id) ==>
                         Seconds(moves[i].now) < Seconds(moves[j].now)
  }

  ghost predicate FromMove(ws: seq<World>, moves: seq<Move>, n: nat, e: Event)
    requires |ws| == |moves| + 1
  {
    exists m :: 0 <= m < n && m < |moves| && PublishesFor(ws[m], moves[m], e.bookingId) && e.occurredAt == moves[m].now
  }

  lemma {:induction false} PlayTicks(ws: seq<World>, moves: seq<Move>, n: nat)
    requires IsPlay(ws, moves) && n < |ws| && ws[0].published == [] && PublishesTick(ws, moves)
    ensures LogTicks(ws[n].published)
    ensures forall i :: 0 <= i < |ws[n].published| ==> FromMove(ws, moves, n, ws[n].published[i])
  {
    if n == 0 {
    } else {
      PlayTicks(ws, moves, n - 1);
      assert ws[n - 1 + 1] == Next(ws[n - 1], moves[n - 1]);
      MovePublishesNow(ws[n - 1], moves[n - 1]);
      LogFromMoreMoves(ws, moves, n - 1, ws[n - 1].published, ws[n].published);
    }
  }

  lemma LogFromMoreMoves(ws: seq<World>, moves: seq<Move>, n: nat, log: seq<Event>, log': seq<Event>)
    requires |ws| == |moves| + 1 && n < |moves| && PublishesTick(ws, moves) && LogTicks(log)
    requires forall i :: 0 <= i < |log| ==> FromMove(ws, moves, n, log[i])
    requires log' == log
             || (moves[n].Publish? && |log'| == |log| + 1 && log'[..|log|] == log
                 && PublishesFor(ws[n], moves[n], log'[|log|].bookingId) && log'[|log|].occurredAt == moves[n].now)
    ensures LogTicks(log') && forall i :: 0 <= i < |log'| ==> FromMove(ws, moves, n + 1, log'[i])
  {
    forall i | 0 <= i < |log|
      ensures FromMove(ws, moves, n + 1, log[i])
      ensures PublishesFor(ws[n], moves[n], log[i].bookingId) ==> Seconds(log[i].occurredAt) < Seconds(moves[n].now)
    {
      assert FromMove(ws, moves, n, log[i]);
      var m :| 0 <= m < n && m < |moves| && PublishesFor(ws[m], moves[m], log[i].bookingId)
               && log[i].occurredAt == moves[m].now;
    }
    if log' != log {
      TicksOneMore(log, log');
      assert FromMove(ws, moves, n + 1, log'[|log|]);
      assert forall i :: 0 <= i < |log| ==> log'[i] == log'[..|log|][i];
    }
  }

  /** The same for overlapping calls of which none overtakes another. */
  lemma ReplicaShowsCalls(ws: seq<World>, moves: seq<Move>, n: nat, id: string, store: seq<Row>)
    requires IsPlay(ws, moves) && ws[0] == IDLE && n < |ws| && PublishesTick(ws, moves)
    requires forall i :: 0 <= i < |moves| ==> !Overtakes(ws[i], moves[i])
    requires id in ws[n].rows && !Busy(ws[n], id) && Delivered(ws[n].published, store, id)
    ensures Latest(store, id).Some? && Shows(Latest(store, id).value, ws[n].rows[id])
  {
    PlayTicks(ws, moves, n);
    if LastEvent(ws[n].published, id).Some? {
      TickingLogIsNewest(ws[n].published, id);
    }
    ReplicaMirrorsCalls(ws, moves, n, id, store);
    MirrorShows(ws[n].rows[id], Latest(store, id).value.occurredAt);
  }
}
