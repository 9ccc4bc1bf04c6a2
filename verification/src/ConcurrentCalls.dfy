/**
 Service calls that overlap. A call checks what it reads, commits its transaction, reads the row
 again and publishes; other calls may do any of these in between. Transactions stay atomic.
 */
module ConcurrentCalls {
  import opened Wrappers
  import opened Instants
  import opened BookingStore
  import opened BookingService
  import opened BookingSafety
  import opened AnalyticsReplica
  import opened Runs

  // How far a call has come. The clock is read when the event is published. A status call publishes
  // the status it was asked to set, whatever it reads.
  datatype Flight =
    | Checked(op: Op)
    | Stored(id: string, claim: Option<Status>)
    | Loaded(b: Booking)

  datatype World = World(rows: Table, published: seq<Event>, calls: map<nat, Flight>)

  datatype Move =
    | Check(call: nat, op: Op)
    | Commit(call: nat)
    | Reload(call: nat)
    | Publish(call: nat, now: int)

  function Dropped(w: World, call: nat): World {
    w.(calls := w.calls - {call})
  }

  /** A created booking is published as it was built; the other calls read their row again first. */
  function FlightOf(op: Op, b: Booking): Flight {
    if op.Create? then Loaded(b)
    else Stored(b.id, if op.SetStatus? then Some(op.status) else None)
  }

  ghost function Committed(w: World, call: nat, op: Op): World {
    match TxRow(w.rows, op)
    case Some(b) => World(w.rows[b.id := b], w.published, w.calls[call := FlightOf(op, b)])
    case None => Dropped(if op.Delete? then w.(rows := w.rows - {op.id}) else w, call)
  }

  /** A row that is gone by now ends the call without an event. */
  function Reloaded(w: World, call: nat, id: string, claim: Option<Status>): World {
    if id !in w.rows then Dropped(w, call)
    else w.(calls := w.calls[call := Loaded(if claim.None? then w.rows[id] else w.rows[id].(status := claim.value))])
  }

  /** A move that its call is not ready for changes nothing. */
  ghost function Next(w: World, m: Move): World {
    match m
    case Check(call, op) =>
      if call !in w.calls && PassesChecks(w.rows, op) then w.(calls := w.calls[call := Checked(op)]) else w
    case Commit(call) =>
      if call in w.calls && w.calls[call].Checked? then Committed(w, call, w.calls[call].op) else w
    case Reload(call) =>
      if call in w.calls && w.calls[call].Stored?
      then Reloaded(w, call, w.calls[call].id, w.calls[call].claim) else w
    case Publish(call, now) =>
      if call in w.calls && w.calls[call].Loaded?
      then Dropped(w.(published := w.published + [EventOf(w.calls[call].b, now)]), call) else w
  }

  ghost function Play(w: World, moves: seq<Move>): World {
    if moves == [] then w else Next(Play(w, moves[..|moves| - 1]), moves[|moves| - 1])
  }

  /** A run of overlapping calls. */
  ghost predicate IsPlay(ws: seq<World>, moves: seq<Move>) {
    && |ws| == |moves| + 1
    && WellKeyed(ws[0].rows)
    && forall i :: 0 <= i < |moves| ==> ws[i + 1] == Next(ws[i], moves[i])
  }

  lemma PlayOneMore(w: World, moves: seq<Move>, m: Move)
    ensures Play(w, moves + [m]) == Next(Play(w, moves), m)
  {
    assert (moves + [m])[..|moves|] == moves;
  }

  lemma {:induction false} PlayConcat(w: World, first: seq<Move>, second: seq<Move>)
    ensures Play(w, first + second) == Play(Play(w, first), second)
  {
    if second == [] {
      assert first + second == first;
    } else {
      var rest := second[..|second| - 1];
      assert first + second == (first + rest) + [second[|second| - 1]];
      PlayConcat(w, first, rest);
      PlayOneMore(w, first + rest, second[|second| - 1]);
    }
  }

  lemma {:induction false} PlayKeepsKeys(ws: seq<World>, moves: seq<Move>, n: nat)
    requires IsPlay(ws, moves) && n < |ws|
    ensures WellKeyed(ws[n].rows)
  {
    if n == 0 {
    } else {
      PlayKeepsKeys(ws, moves, n - 1);
      assert ws[n - 1 + 1] == Next(ws[n - 1], moves[n - 1]);
    }
  }

  // ---- what overlapping calls do to the table ----

  /** A commit is the atomic operation addressed to the barber whose row it finds. */
  function Addressed(op: Op, rows: Table): Op {
    if op.Create? || op.id !in rows then op else op.(barberId := rows[op.id].barberId)
  }

  // A request for an unknown barber, which changes nothing.
  const REFUSED: Op := Create(Request("", "", "", "", 0), false, None, "", 0)

  /** The atomic operation that changes the table as the move does. */
  function TableOp(w: World, m: Move): Op {
    if m.Commit? && m.call in w.calls && w.calls[m.call].Checked? then Addressed(w.calls[m.call].op, w.rows) else REFUSED
  }

  lemma MoveIsTableStep(w: World, m: Move, log: seq<Event>)
    requires WellKeyed(w.rows)
    ensures Next(w, m).rows == After(State(w.rows, log), TableOp(w, m)).rows
  {
    StepStoresAccepted(State(w.rows, log), TableOp(w, m));
  }

  /** Every run of overlapping calls has the tables of a run of atomic operations, so all that holds of
      the tables there holds here. */
  lemma {:induction false} CallsRefineSteps(ws: seq<World>, moves: seq<Move>) returns (states: seq<State>, ops: seq<Op>)
    requires IsPlay(ws, moves)
    ensures IsRun(states, ops) && |states| == |ws|
    ensures forall i :: 0 <= i < |ws| ==> states[i].rows == ws[i].rows
    ensures forall i :: 0 <= i < |moves| ==> ops[i] == TableOp(ws[i], moves[i])
  {
    if moves == [] {
      states, ops := [State(ws[0].rows, [])], [];
    } else {
      var n := |moves| - 1;
      var before, done := CallsRefineSteps(ws[..n + 1], moves[..n]);
      var op := TableOp(ws[n], moves[n]);
      PlayKeepsKeys(ws, moves, n);
      MoveIsTableStep(ws[n], moves[n], before[n].published);
      states, ops := before + [After(before[n], op)], done + [op];
    }
  }

  /** Overlapping calls double book a day exactly when a commit reactivates into an occupied interval. */
  lemma NoDoubleBookingOverCalls(ws: seq<World>, moves: seq<Move>)
    requires IsPlay(ws, moves) && NoDoubleBooking(ws[0].rows)
    ensures (forall n :: 0 <= n < |ws| ==> NoDoubleBooking(ws[n].rows))
            <==> (forall i :: 0 <= i < |moves| ==> !HarmfulReactivation(ws[i].rows, TableOp(ws[i], moves[i])))
  {
    var states, ops := CallsRefineSteps(ws, moves);
    NoDoubleBookingOverRuns(states, ops);
    assert forall i :: 0 <= i < |moves| ==>
                         HarmfulReactivation(states[i].rows, ops[i]) == HarmfulReactivation(ws[i].rows, TableOp(ws[i], moves[i]));
    assert forall n :: 0 <= n < |ws| ==> NoDoubleBooking(states[n].rows) == NoDoubleBooking(ws[n].rows);
  }

  /** An operation of the atomic service is a call that nothing overlaps. */
  lemma OneCallIsAStep(st: State, op: Op)
    requires WellKeyed(st.rows)
    ensures Play(World(st.rows, st.published, map[]), [Check(0, op), Commit(0), Reload(0), Publish(0, NowOf(op))])
            == World(After(st, op).rows, After(st, op).published, map[])
  {
    var w := World(st.rows, st.published, map[]);
    FourMoves(w, Check(0, op), Commit(0), Reload(0), Publish(0, NowOf(op)));
    StepStoresAccepted(st, op);
    if PassesChecks(st.rows, op) {
      LoneCommit(w.(calls := map[0 := Checked(op)]), op);
    }
  }

  /** A lone call publishes the row it stored. */
  lemma LoneCommit(w: World, op: Op)
    requires WellKeyed(w.rows) && w.calls == map[0 := Checked(op)]
    ensures Next(Next(Next(w, Commit(0)), Reload(0)), Publish(0, NowOf(op))) ==
            match TxRow(w.rows, op)
            case Some(b) => World(w.rows[b.id := b], w.published + [EventOf(b, NowOf(op))], map[])
            case None => World(if op.Delete? then w.rows - {op.id} else w.rows, w.published, map[])
  {
    var w2 := Next(w, Commit(0));
    var w3 := Next(w2, Reload(0));
    var none: map<nat, Flight> := map[];
    assert w.calls - {0} == none;
    if TxRow(w.rows, op).Some? {
      var b := TxRow(w.rows, op).value;
      assert w2 == World(w.rows[b.id := b], w.published, map[0 := FlightOf(op, b)]);
      assert w3.calls == map[0 := Loaded(b)];
      assert w3.calls - {0} == none;
    }
  }

  lemma FourMoves(w: World, a: Move, b: Move, c: Move, d: Move)
    ensures Play(w, [a, b, c, d]) == Next(Next(Next(Next(w, a), b), c), d)
  {
    PlayOneMore(w, [], a);
    PlayOneMore(w, [a], b);
    PlayOneMore(w, [a, b], c);
    PlayOneMore(w, [a, b, c], d);
    assert [a] == [] + [a] && [a, b] == [a] + [b] && [a, b, c] == [a, b] + [c] && [a, b, c, d] == [a, b, c] + [d];
  }

  // ---- what they do to the order of events ----

  /** The call has committed a change of this booking and has not published it. */
  predicate Concerns(f: Flight, id: string) {
    match f
    case Checked(_) => false
    case Stored(k, _) => k == id
    case Loaded(b) => b.id == id
  }

  ghost predicate Busy(w: World, id: string) {
    exists c :: c in w.calls && Concerns(w.calls[c], id)
  }

  /** What the call is going to publish has the content of b, if b stays as it is. */
  predicate Agrees(f: Flight, b: Booking) {
    match f
    case Checked(_) => true
    case Stored(_, claim) => claim.None? || StatusToProto(claim.value) == StatusToProto(b.status)
    case Loaded(held) => EventOf(held, 0) == EventOf(b, 0)
  }

  /** The calls under way for the booking all agree with its row; without any, the log has its content. */
  ghost predicate Current(w: World, id: string) {
    id in w.rows ==>
      if Busy(w, id) then forall c :: c in w.calls && Concerns(w.calls[c], id) ==> Agrees(w.calls[c], w.rows[id])
      else LogReflects(w.published, id, w.rows[id])
  }

  ghost predicate AllCurrent(w: World) {
    forall id :: id in w.rows ==> Current(w, id)
  }

  /** Calls only read their rows again and publish; nothing new is committed. */
  predicate Finishing(moves: seq<Move>) {
    forall i :: 0 <= i < |moves| ==> moves[i].Reload? || moves[i].Publish?
  }

  /** In whatever order the calls under way finish, the last event of the booking has the content of
      its row. */
  ghost predicate Settles(w: World, id: string)
    requires id in w.rows
  {
    forall moves :: Finishing(moves) && !Busy(Play(w, moves), id) ==>
                      LogReflects(Play(w, moves).published, id, w.rows[id])
  }

  lemma FinishingKeepsCurrent(w: World, m: Move, id: string)
    requires WellKeyed(w.rows) && (m.Reload? || m.Publish?) && id in w.rows && Current(w, id)
    ensures Next(w, m).rows == w.rows && Current(Next(w, m), id)
  {
    var w' := Next(w, m);
    if w' != w {
      assert forall c :: c in w.calls && c != m.call ==> c in w'.calls && w'.calls[c] == w.calls[c];
      if m.Publish? {
        AppendEvent(w.published, EventOf(w.calls[m.call].b, m.now), id);
      } else if Concerns(w.calls[m.call], id) {
        assert Concerns(w'.calls[m.call], id);
      }
      if Busy(w', id) {
        var c :| c in w'.calls && Concerns(w'.calls[c], id);
        assert c in w.calls && Concerns(w.calls[c], id);
      } else if Busy(w, id) {
        var c :| c in w.calls && Concerns(w.calls[c], id);
        assert c == m.call;
      }
    }
  }

  lemma {:induction false} CurrentSettles(w: World, id: string, moves: seq<Move>)
    requires WellKeyed(w.rows) && id in w.rows && Current(w, id) && Finishing(moves)
    ensures Play(w, moves).rows == w.rows && Current(Play(w, moves), id)
  {
    if moves == [] {
    } else {
      var before := moves[..|moves| - 1];
      CurrentSettles(w, id, before);
      FinishingKeepsCurrent(Play(w, before), moves[|moves| - 1], id);
    }
  }

  /** The event a call for this booking publishes if it finishes now. */
  function Outgoing(w: World, f: Flight, id: string): Booking
    requires id in w.rows && Concerns(f, id)
  {
    match f
    case Stored(_, claim) => if claim.None? then w.rows[id] else w.rows[id].(status := claim.value)
    case Loaded(b) => b
  }

  /** One call finishes. */
  lemma FinishCall(w: World, id: string, c: nat)
    requires id in w.rows && c in w.calls && Concerns(w.calls[c], id)
    ensures Play(w, [Reload(c), Publish(c, 0)]) ==
            World(w.rows, w.published + [EventOf(Outgoing(w, w.calls[c], id), 0)], w.calls - {c})
  {
    var w1 := Next(w, Reload(c));
    PlayOneMore(w, [], Reload(c));
    PlayOneMore(w, [Reload(c)], Publish(c, 0));
    assert [Reload(c)] == [] + [Reload(c)] && [Reload(c), Publish(c, 0)] == [Reload(c)] + [Publish(c, 0)];
    assert w1 == w.(calls := w.calls[c := Loaded(Outgoing(w, w.calls[c], id))]);
    assert w1.calls - {c} == w.calls - {c};
  }

  ghost function OthersFor(w: World, id: string, keep: nat): set<nat> {
    set c | c in w.calls && Concerns(w.calls[c], id) && c != keep
  }

  /** All calls for the booking but one finish. */
  lemma {:induction false} FinishOthers(w: World, id: string, keep: nat) returns (moves: seq<Move>)
    requires id in w.rows && keep in w.calls
    ensures Finishing(moves)
    ensures var w' := Play(w, moves);
            && w'.rows == w.rows && keep in w'.calls && w'.calls[keep] == w.calls[keep]
            && OthersFor(w', id, keep) == {}
    decreases |OthersFor(w, id, keep)|
  {
    if OthersFor(w, id, keep) == {} {
      moves := [];
    } else {
      var c :| c in OthersFor(w, id, keep);
      var first := [Reload(c), Publish(c, 0)];
      FinishCall(w, id, c);
      var w1 := Play(w, first);
      assert OthersFor(w1, id, keep) == OthersFor(w, id, keep) - {c};
      var rest := FinishOthers(w1, id, keep);
      PlayConcat(w, first, rest);
      moves := first + rest;
    }
  }

  /** A call that disagrees with the row can be the last to publish. */
  lemma StaleFinish(w: World, id: string) returns (moves: seq<Move>)
    requires WellKeyed(w.rows) && id in w.rows && !Current(w, id)
    ensures Finishing(moves) && !Busy(Play(w, moves), id)
    ensures !LogReflects(Play(w, moves).published, id, w.rows[id])
  {
    if !Busy(w, id) {
      moves := [];
    } else {
      var c :| c in w.calls && Concerns(w.calls[c], id) && !Agrees(w.calls[c], w.rows[id]);
      var others := FinishOthers(w, id, c);
      var w1 := Play(w, others);
      var last := [Reload(c), Publish(c, 0)];
      FinishCall(w1, id, c);
      PlayConcat(w, others, last);
      moves := others + last;
      AppendEvent(w1.published, EventOf(Outgoing(w1, w1.calls[c], id), 0), id);
      forall d | d in Play(w1, last).calls
        ensures !Concerns(Play(w1, last).calls[d], id)
      {
        assert d !in OthersFor(w1, id, c);
      }
    }
  }

  /** The calls under way lead to the booking's row in every order exactly when they all agree with it. */
  lemma SettlesExactly(w: World, id: string)
    requires WellKeyed(w.rows) && id in w.rows
    ensures Settles(w, id) <==> Current(w, id)
  {
    if Current(w, id) {
      forall moves | Finishing(moves) && !Busy(Play(w, moves), id)
        ensures LogReflects(Play(w, moves).published, id, w.rows[id])
      {
        CurrentSettles(w, id, moves);
      }
    } else {
      var moves := StaleFinish(w, id);
    }
  }

  /** A transaction is about to write a row while another call has yet to publish something else for it. */
  ghost predicate Overtakes(w: World, m: Move) {
    && m.Commit? && m.call in w.calls && w.calls[m.call].Checked?
    && var row := TxRow(w.rows, w.calls[m.call].op);
       row.Some? && exists d :: d in w.calls && Concerns(w.calls[d], row.value.id) && !Agrees(w.calls[d], row.value)
  }

  lemma CommitKeepsCurrent(w: World, call: nat, b: Booking)
    requires WellKeyed(w.rows) && AllCurrent(w) && call in w.calls && w.calls[call].Checked?
    requires TxRow(w.rows, w.calls[call].op) == Some(b)
    ensures AllCurrent(Next(w, Commit(call))) <==> !Overtakes(w, Commit(call))
  {
    var op := w.calls[call].op;
    var w' := Next(w, Commit(call));
    assert w' == World(w.rows[b.id := b], w.published, w.calls[call := FlightOf(op, b)]);
    assert Concerns(w'.calls[call], b.id) && Agrees(w'.calls[call], b);
    assert Busy(w', b.id);
    if Overtakes(w, Commit(call)) {
      var d :| d in w.calls && Concerns(w.calls[d], b.id) && !Agrees(w.calls[d], b);
      assert d in w'.calls && w'.calls[d] == w.calls[d];
      assert !Current(w', b.id);
    } else {
      forall id | id in w'.rows
        ensures Current(w', id)
      {
        if id != b.id {
          OtherBookingsStay(w, w', call, id);
        }
      }
    }
  }

  /** What a call does to its own booking leaves other bookings as they were. */
  lemma OtherBookingsStay(w: World, w': World, call: nat, id: string)
    requires id in w.rows && Current(w, id) && id in w'.rows && w'.rows[id] == w.rows[id]
    requires LogReflects(w.published, id, w.rows[id]) ==> LogReflects(w'.published, id, w.rows[id])
    requires forall c :: c != call ==> (c in w.calls <==> c in w'.calls) && (c in w.calls ==> w.calls[c] == w'.calls[c])
    requires call in w.calls ==> !Concerns(w.calls[call], id)
    requires call in w'.calls ==> !Concerns(w'.calls[call], id)
    ensures Current(w', id)
  {
    if Busy(w, id) {
      var c :| c in w.calls && Concerns(w.calls[c], id);
      assert Concerns(w'.calls[c], id);
    }
    if Busy(w', id) {
      var c :| c in w'.calls && Concerns(w'.calls[c], id);
      assert Concerns(w.calls[c], id);
    }
  }

  /** One move leaves every booking settled exactly when it overtakes no other call. */
  lemma MoveKeepsCurrent(w: World, m: Move)
    requires WellKeyed(w.rows) && AllCurrent(w)
    ensures AllCurrent(Next(w, m)) <==> !Overtakes(w, m)
  {
    var w' := Next(w, m);
    if m.Commit? && m.call in w.calls && w.calls[m.call].Checked? && TxRow(w.rows, w.calls[m.call].op).Some? {
      CommitKeepsCurrent(w, m.call, TxRow(w.rows, w.calls[m.call].op).value);
    } else {
      forall id | id in w'.rows
        ensures Current(w', id)
      {
        if m.Reload? || m.Publish? {
          FinishingKeepsCurrent(w, m, id);
        } else if w' != w {
          OtherBookingsStay(w, w', m.call, id);
        }
      }
    }
  }

  /** Over every run of overlapping calls: in every state each booking's calls under way will end, in
      every order, with an event that has its row's content, exactly when no transaction overtook a call
      on the same booking that had something else still to publish. */
  lemma EventsFollowTableExactly(ws: seq<World>, moves: seq<Move>)
    requires IsPlay(ws, moves) && AllCurrent(ws[0])
    ensures (forall n, id :: 0 <= n < |ws| && id in ws[n].rows ==> Settles(ws[n], id))
            <==> (forall i :: 0 <= i < |moves| ==> !Overtakes(ws[i], moves[i]))
  {
    forall i | 0 <= i < |moves| && AllCurrent(ws[i])
      ensures AllCurrent(ws[i + 1]) <==> !Overtakes(ws[i], moves[i])
    {
      PlayKeepsKeys(ws, moves, i);
      MoveKeepsCurrent(ws[i], moves[i]);
    }
    HoldsExactlyWithoutHarm(ws, moves, AllCurrent, Overtakes);
    forall n, id | 0 <= n < |ws| && id in ws[n].rows
      ensures Settles(ws[n], id) <==> Current(ws[n], id)
    {
      PlayKeepsKeys(ws, moves, n);
      SettlesExactly(ws[n], id);
    }
    if forall n, id :: 0 <= n < |ws| && id in ws[n].rows ==> Settles(ws[n], id) {
      assert forall n :: 0 <= n < |ws| ==> AllCurrent(ws[n]);
    }
  }

  /** The move commits nothing for a booking while another call on it has yet to publish. */
  ghost predicate InTurn(w: World, m: Move) {
    m.Commit? && m.call in w.calls && w.calls[m.call].Checked? && TxRow(w.rows, w.calls[m.call].op).Some? ==>
      !Busy(w, TxRow(w.rows, w.calls[m.call].op).value.id)
  }

  /** While calls on one booking take turns between commit and event, every booking's events end at its
      row; calls on different bookings may overlap freely. */
  lemma TurnsSuffice(ws: seq<World>, moves: seq<Move>, n: nat, id: string)
    requires IsPlay(ws, moves) && AllCurrent(ws[0]) && n < |ws| && id in ws[n].rows
    requires forall i :: 0 <= i < |moves| ==> InTurn(ws[i], moves[i])
    ensures Settles(ws[n], id)
    ensures !Busy(ws[n], id) ==> LogReflects(ws[n].published, id, ws[n].rows[id])
  {
    forall i | 0 <= i < |moves|
      ensures !Overtakes(ws[i], moves[i])
    {
      assert InTurn(ws[i], moves[i]);
    }
    EventsFollowTableExactly(ws, moves);
    assert Play(ws[n], []) == ws[n];
  }

  /** Once no call on a booking is under way and all its events have arrived, analytics reads its row, if
      its last change is the newest by the second. */
  lemma ReplicaMirrorsCalls(ws: seq<World>, moves: seq<Move>, n: nat, id: string, store: seq<Row>)
    requires IsPlay(ws, moves) && AllCurrent(ws[0]) && n < |ws|
    requires forall i :: 0 <= i < |moves| ==> !Overtakes(ws[i], moves[i])
    requires id in ws[n].rows && !Busy(ws[n], id)
    requires LastEvent(ws[n].published, id).Some? ==> LastIsNewest(ws[n].published, id)
    requires Delivered(ws[n].published, store, id)
    ensures Latest(store, id).Some?
    ensures Latest(store, id).value == Mirror(ws[n].rows[id], Latest(store, id).value.occurredAt)
  {
    EventsFollowTableExactly(ws, moves);
    assert Settles(ws[n], id);
    assert Play(ws[n], []) == ws[n];
    MirrorsReflectedRow(ws[n].published, ws[n].rows[id], id, store);
  }

  // ---- a run in which the events end elsewhere than the table ----

  const IDLE: World := World(map[], [], map[])

  /** The worlds a sequence of moves passes through. */
  lemma {:induction false} PlayIsRun(w: World, moves: seq<Move>) returns (ws: seq<World>)
    requires WellKeyed(w.rows)
    ensures IsPlay(ws, moves) && ws[0] == w && ws[|moves|] == Play(w, moves)
  {
    if moves == [] {
      ws := [w];
    } else {
      var before := PlayIsRun(w, moves[..|moves| - 1]);
      ws := before + [Play(w, moves)];
    }
  }

  /** Two calls set different statuses. The second commits last and publishes first: the row says
      cancelled, the last event completed, and no call is under way any more. */
  lemma StatusesCross()
    ensures exists moves: seq<Move>, ws: seq<World> ::
              && IsPlay(ws, moves) && ws[0] == IDLE
              && var w := ws[|moves|];
                 && w.calls == map[] && "1" in w.rows && w.rows["1"].status == Cancelled
                 && LastEvent(w.published, "1").Some? && LastEvent(w.published, "1").value.status == ProtoCompleted
  {
    var w := Play(IDLE, FirstCall());
    FirstBooking();
    CrossedStatuses(w);
    PlayConcat(IDLE, FirstCall(), Commits() + Publications());
    var ws := PlayIsRun(IDLE, FirstCall() + (Commits() + Publications()));
  }

  function FirstCall(): seq<Move> {
    [Check(0, SampleCreate("1", "p", 10 * HOUR, 60)), Commit(0), Reload(0), Publish(0, 0)]
  }

  lemma FirstBooking()
    ensures var w := Play(IDLE, FirstCall());
            && w.rows.Keys == {"1"} && w.calls == map[]
            && w.rows["1"].id == "1" && w.rows["1"].barberId == "b" && w.rows["1"].status == Pending
  {
    OneCallIsAStep(EMPTY, SampleCreate("1", "p", 10 * HOUR, 60));
  }

  function Commits(): seq<Move> {
    [Check(1, SetStatus("1", "b", Completed, 0)), Commit(1), Check(2, SetStatus("1", "b", Cancelled, 0)), Commit(2)]
  }

  function Publications(): seq<Move> {
    [Reload(2), Publish(2, 0), Reload(1), Publish(1, 0)]
  }

  lemma CrossedStatuses(w: World)
    requires w.rows.Keys == {"1"} && w.calls == map[]
    requires w.rows["1"].id == "1" && w.rows["1"].barberId == "b" && w.rows["1"].status == Pending
    ensures var w' := Play(w, Commits() + Publications());
            && w'.calls == map[] && "1" in w'.rows && w'.rows["1"].status == Cancelled
            && LastEvent(w'.published, "1").Some? && LastEvent(w'.published, "1").value.status == ProtoCompleted
  {
    PlayConcat(w, Commits(), Publications());
    BothCommit(w);
    BothPublish(Play(w, Commits()));
  }

  lemma BothCommit(w: World)
    requires w.rows.Keys == {"1"} && w.calls == map[]
    requires w.rows["1"].id == "1" && w.rows["1"].barberId == "b" && w.rows["1"].status == Pending
    ensures Play(w, Commits()) == World(map["1" := w.rows["1"].(status := Cancelled)], w.published,
                                        map[1 := Stored("1", Some(Completed)), 2 := Stored("1", Some(Cancelled))])
  {
    FourMoves(w, Commits()[0], Commits()[1], Commits()[2], Commits()[3]);
    StatusCommits(w, 1, Completed);
    StatusCommits(Next(Next(w, Commits()[0]), Commits()[1]), 2, Cancelled);
  }

  lemma StatusCommits(w: World, call: nat, status: Status)
    requires w.rows.Keys == {"1"} && call !in w.calls
    requires w.rows["1"].id == "1" && w.rows["1"].barberId == "b" && w.rows["1"].status != status
    ensures Next(Next(w, Check(call, SetStatus("1", "b", status, 0))), Commit(call)) ==
            World(map["1" := w.rows["1"].(status := status)], w.published, w.calls[call := Stored("1", Some(status))])
  {
  }

  lemma BothPublish(w: World)
    requires w.rows.Keys == {"1"} && w.rows["1"].id == "1"
    requires w.calls == map[1 := Stored("1", Some(Completed)), 2 := Stored("1", Some(Cancelled))]
    ensures var w' := Play(w, Publications());
            && w'.calls == map[] && w'.rows == w.rows
            && LastEvent(w'.published, "1").Some? && LastEvent(w'.published, "1").value.status == ProtoCompleted
  {
    var first, second := [Reload(2), Publish(2, 0)], [Reload(1), Publish(1, 0)];
    FinishCall(w, "1", 2);
    var w1 := Play(w, first);
    FinishCall(w1, "1", 1);
    PlayConcat(w, first, second);
    assert first + second == Publications();
    AppendEvent(w1.published, EventOf(Outgoing(w1, w1.calls[1], "1"), 0), "1");
  }
}
