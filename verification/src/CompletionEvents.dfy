/**
 Bookings that are completed and the events that say so. A completion is announced unless the booking
 is deleted before the call that completed it reads its row again.
 */
module CompletionEvents {
  import opened Wrappers
  import opened Instants
  import opened BookingStore
  import opened BookingService
  import opened BookingSafety
  import opened ConcurrentCalls
  import opened Runs

  ghost function CompletedRows(rows: Table): set<string> {
    set id | id in rows && rows[id].status == Completed
  }

  /** The bookings that were completed in one of the first n + 1 states. */
  ghost function EverCompleted(ws: seq<World>, n: nat): set<string>
    requires n < |ws|
  {
    CompletedRows(ws[n].rows) + if n == 0 then {} else EverCompleted(ws, n - 1)
  }

  /** The call is going to announce that this booking is completed. */
  predicate Carries(f: Flight, id: string) {
    match f
    case Checked(_) => false
    case Stored(k, claim) => k == id && claim == Some(Completed)
    case Loaded(b) => b.id == id && b.status == Completed
  }

  ghost predicate Announced(log: seq<Event>, id: string) {
    exists e :: e in log && e.bookingId == id && e.status == ProtoCompleted
  }

  /** The completion was published or some call will publish it. */
  ghost predicate Carried(w: World, id: string) {
    Announced(w.published, id) || exists c :: c in w.calls && Carries(w.calls[c], id)
  }

  // A state of a run together with the bookings completed so far.
  datatype Past = Past(w: World, ever: set<string>)

  ghost predicate NoneLost(p: Past) {
    CompletedRows(p.w.rows) <= p.ever && forall id :: id in p.ever ==> Carried(p.w, id)
  }

  /** The call that is to announce the completion finds its row gone, and nothing else announces it. */
  ghost predicate LosesCompletion(w: World, m: Move) {
    && m.Reload? && m.call in w.calls && w.calls[m.call].Stored?
    && var id := w.calls[m.call].id;
       && id !in w.rows && Carries(w.calls[m.call], id) && !Announced(w.published, id)
       && forall c :: c in w.calls && c != m.call ==> !Carries(w.calls[c], id)
  }

  /** Every completed row, every call that announces a completion and every completed event belongs to
      a booking that was completed. */
  ghost predicate AllFromCompletions(p: Past) {
    && CompletedRows(p.w.rows) <= p.ever
    && (forall c, id :: c in p.w.calls && Carries(p.w.calls[c], id) ==> id in p.ever)
    && (forall e :: e in p.w.published && e.status == ProtoCompleted ==> e.bookingId in p.ever)
  }

  ghost function NextPast(p: Past, m: Move): Past {
    Past(Next(p.w, m), p.ever + CompletedRows(Next(p.w, m).rows))
  }

  lemma MoveKeepsFromCompletions(p: Past, m: Move)
    requires WellKeyed(p.w.rows) && AllFromCompletions(p)
    ensures AllFromCompletions(NextPast(p, m))
  {
    var w, w' := p.w, Next(p.w, m);
    if m.Commit? && m.call in w.calls && w.calls[m.call].Checked? && TxRow(w.rows, w.calls[m.call].op).Some? {
      var b := TxRow(w.rows, w.calls[m.call].op).value;
      assert w'.rows[b.id] == b;
      StoredRowDecides(w, w.calls[m.call].op);
    }
  }

  /** A transaction that writes a completed row announces it, unless the row was completed before. */
  lemma StoredRowDecides(w: World, op: Op)
    requires WellKeyed(w.rows) && TxRow(w.rows, op).Some?
    ensures var b := TxRow(w.rows, op).value;
            && (Carries(FlightOf(op, b), b.id) ==> b.status == Completed)
            && (b.status == Completed ==> Carries(FlightOf(op, b), b.id) || b.id in CompletedRows(w.rows))
  {
  }

  /** A carried completion stays carried unless this move loses it. */
  lemma CarriedStays(w: World, m: Move, id: string)
    requires WellKeyed(w.rows) && Carried(w, id)
    requires !(LosesCompletion(w, m) && w.calls[m.call].id == id)
    ensures Carried(Next(w, m), id)
  {
    var w' := Next(w, m);
    if Announced(w.published, id) {
      var e :| e in w.published && e.bookingId == id && e.status == ProtoCompleted;
      assert e in w'.published;
    } else {
      var c :| c in w.calls && Carries(w.calls[c], id)
               && (m.Reload? && c == m.call && id !in w.rows ==>
                     forall d :: d in w.calls && d != c ==> !Carries(w.calls[d], id));
      if m.Publish? && c == m.call && w.calls[c].Loaded? {
        var e := EventOf(w.calls[c].b, m.now);
        assert e in w'.published;
      } else if c != m.call || !m.Reload? || w.calls[c].Stored? {
        assert c in w'.calls && Carries(w'.calls[c], id);
      }
    }
  }

  lemma LostIsNotCarried(w: World, m: Move)
    requires LosesCompletion(w, m)
    ensures !Carried(Next(w, m), w.calls[m.call].id)
  {
  }

  /** A row that is completed now is carried, whatever was lost before. */
  lemma NewlyCompletedIsCarried(w: World, m: Move, id: string)
    requires WellKeyed(w.rows) && id in CompletedRows(Next(w, m).rows) && id !in CompletedRows(w.rows)
    ensures Carried(Next(w, m), id)
  {
    var w' := Next(w, m);
    assert w'.rows != w.rows;
    var op := w.calls[m.call].op;
    StoredRowDecides(w, op);
    assert Carries(w'.calls[m.call], id);
  }

  /** One move keeps all completions announced or on their way exactly when it loses none. */
  lemma MoveLosesExactly(p: Past, m: Move)
    requires WellKeyed(p.w.rows) && AllFromCompletions(p) && NoneLost(p)
    ensures NoneLost(NextPast(p, m)) <==> !LosesCompletion(p.w, m)
  {
    var w' := Next(p.w, m);
    if LosesCompletion(p.w, m) {
      LostIsNotCarried(p.w, m);
      assert p.w.calls[m.call].id in p.ever;
    } else {
      forall id | id in p.ever + CompletedRows(w'.rows)
        ensures Carried(w', id)
      {
        if id in p.ever {
          CarriedStays(p.w, m, id);
        } else {
          NewlyCompletedIsCarried(p.w, m, id);
        }
      }
    }
  }

  // ---- whole runs ----

  ghost function Pasts(ws: seq<World>): seq<Past> {
    seq(|ws|, i requires 0 <= i < |ws| => Past(ws[i], EverCompleted(ws, i)))
  }

  lemma {:induction false} RunKeepsFromCompletions(ws: seq<World>, moves: seq<Move>, n: nat)
    requires IsPlay(ws, moves) && ws[0] == IDLE && n < |ws|
    ensures AllFromCompletions(Past(ws[n], EverCompleted(ws, n)))
  {
    if n == 0 {
    } else {
      RunKeepsFromCompletions(ws, moves, n - 1);
      PlayKeepsKeys(ws, moves, n - 1);
      assert ws[n - 1 + 1] == Next(ws[n - 1], moves[n - 1]);
      MoveKeepsFromCompletions(Past(ws[n - 1], EverCompleted(ws, n - 1)), moves[n - 1]);
    }
  }

  lemma {:induction false} MovesDecide(ws: seq<World>, moves: seq<Move>)
    requires IsPlay(ws, moves) && ws[0] == IDLE
    ensures var ps := Pasts(ws);
            && NoneLost(ps[0])
            && forall i :: 0 <= i < |moves| && NoneLost(ps[i]) ==>
                             (NoneLost(ps[i + 1]) <==> !LosesCompletion(ps[i].w, moves[i]))
  {
    var ps := Pasts(ws);
    forall i | 0 <= i < |moves| && NoneLost(ps[i])
      ensures NoneLost(ps[i + 1]) <==> !LosesCompletion(ps[i].w, moves[i])
    {
      RunKeepsFromCompletions(ws, moves, i);
      PlayKeepsKeys(ws, moves, i);
      MoveLosesExactly(ps[i], moves[i]);
      assert ps[i + 1] == NextPast(ps[i], moves[i]);
    }
  }

  lemma {:induction false} PastsAgree(ws: seq<World>)
    ensures (forall n :: 0 <= n < |ws| ==> NoneLost(Pasts(ws)[n]))
            <==> (forall n, id :: 0 <= n < |ws| && id in EverCompleted(ws, n) ==> Carried(ws[n], id))
  {
    var ps := Pasts(ws);
    forall n | 0 <= n < |ws|
      ensures NoneLost(ps[n]) <==> forall id :: id in EverCompleted(ws, n) ==> Carried(ws[n], id)
    {
      assert ps[n] == Past(ws[n], EverCompleted(ws, n));
    }
  }

  /** Over every run of overlapping calls: every booking ever completed is announced as completed, or a
      call under way will announce it, exactly when no call that is to announce one finds it deleted
      with nothing else to announce it. */
  lemma {:induction false} CompletionsAreAnnouncedExactly(ws: seq<World>, moves: seq<Move>)
    requires IsPlay(ws, moves) && ws[0] == IDLE
    ensures (forall n, id :: 0 <= n < |ws| && id in EverCompleted(ws, n) ==> Carried(ws[n], id))
            <==> (forall i :: 0 <= i < |moves| ==> !LosesCompletion(ws[i], moves[i]))
  {
    var ps := Pasts(ws);
    MovesDecide(ws, moves);
    HoldsExactlyWithoutHarm(ps, moves, NoneLost, (p: Past, m: Move) => LosesCompletion(p.w, m));
    PastsAgree(ws);
    assert forall i :: 0 <= i < |moves| ==> ps[i].w == ws[i];
  }

  /** A booking that is still in the table as completed is announced or about to be, even in runs that
      lost the completion of a deleted one. */
  lemma {:induction false} CompletedRowIsCarried(ws: seq<World>, moves: seq<Move>, n: nat, id: string)
    requires IsPlay(ws, moves) && ws[0] == IDLE && n < |ws| && id in CompletedRows(ws[n].rows)
    ensures Carried(ws[n], id)
  {
    if n == 0 {
    } else {
      PlayKeepsKeys(ws, moves, n - 1);
      assert ws[n - 1 + 1] == Next(ws[n - 1], moves[n - 1]);
      if id in CompletedRows(ws[n - 1].rows) {
        CompletedRowIsCarried(ws, moves, n - 1, id);
        CarriedStays(ws[n - 1], moves[n - 1], id);
      } else {
        NewlyCompletedIsCarried(ws[n - 1], moves[n - 1], id);
      }
    }
  }

  // ---- a completion that nobody hears of ----

  function CompleteAndDelete(): seq<Move> {
    [Check(1, SetStatus("1", "b", Completed, 0)), Commit(1), Check(2, Delete("1", "b")), Commit(2)]
  }

  /** A booking is completed and deleted before the first call reads it again: no event says completed. */
  lemma DeletedCompletionIsLost()
    ensures exists moves: seq<Move>, ws: seq<World>, n ::
              && IsPlay(ws, moves) && ws[0] == IDLE && 0 <= n < |moves|
              && "1" in CompletedRows(ws[n].rows)
              && ws[|moves|].calls == map[] && !Announced(ws[|moves|].published, "1")
  {
    var w := Play(IDLE, FirstCall());
    FirstBooking();
    FirstIsNotAnnounced();
    var rest := CompleteAndDelete();
    var moves := FirstCall() + rest + [Reload(1)];
    var ws := PlayIsRun(IDLE, moves);
    CompletedThenGone(w);
    PlayReaches(IDLE, moves, ws, 6);
    assert moves[..6] == FirstCall() + rest[..2];
    PlayConcat(IDLE, FirstCall(), rest[..2]);
    PlayConcat(IDLE, FirstCall(), rest);
    PlayOneMore(IDLE, FirstCall() + rest, Reload(1));
  }

  lemma FirstIsNotAnnounced()
    ensures !Announced(Play(IDLE, FirstCall()).published, "1")
  {
    OneCallIsAStep(EMPTY, SampleCreate("1", "p", 10 * HOUR, 60));
  }

  lemma {:induction false} PlayReaches(w: World, moves: seq<Move>, ws: seq<World>, n: nat)
    requires IsPlay(ws, moves) && ws[0] == w && n < |ws|
    ensures ws[n] == Play(w, moves[..n])
  {
    if n == 0 {
    } else {
      PlayReaches(w, moves, ws, n - 1);
      assert ws[n - 1 + 1] == Next(ws[n - 1], moves[n - 1]);
      assert moves[..n] == moves[..n - 1] + [moves[n - 1]];
      PlayOneMore(w, moves[..n - 1], moves[n - 1]);
    }
  }

  lemma CompletedThenGone(w: World)
    requires w.rows.Keys == {"1"} && w.calls == map[]
    requires w.rows["1"].id == "1" && w.rows["1"].barberId == "b" && w.rows["1"].status == Pending
    ensures "1" in CompletedRows(Play(w, CompleteAndDelete()[..2]).rows)
    ensures var w' := Next(Play(w, CompleteAndDelete()), Reload(1)); w'.calls == map[] && w'.published == w.published
  {
    var moves := CompleteAndDelete();
    StatusCommits(w, 1, Completed);
    var w2 := Next(Next(w, moves[0]), moves[1]);
    PlayOneMore(w, [], moves[0]);
    PlayOneMore(w, [moves[0]], moves[1]);
    assert moves[..2] == [moves[0]] + [moves[1]] && [moves[0]] == [] + [moves[0]];
    FourMoves(w, moves[0], moves[1], moves[2], moves[3]);
    var w4 := Next(Next(w2, moves[2]), moves[3]);
    assert w4.rows == map[] && w4.calls == map[1 := Stored("1", Some(Completed))];
    assert w4.calls - {1} == map[];
  }
}
