/**
 Visit counting in the client service. Deliveries may repeat, arrive in any order, stop half way
 and be retried after a commit that did take effect; the counts depend on none of that.
 */
module ClientVisits {
  import opened Wrappers
  import opened BookingService
  import opened Retry

  // Barber and phone: the unique key of the clients table.
  type Key = (string, string)

  datatype Client = Client(id: string, name: string, notes: string, visits: int, lastVisit: Option<int>)

  datatype Db = Db(clients: map<Key, Client>, processed: set<string>)

  // The statements that change the tables. The id of a row that may be created is an input.
  datatype Write =
    | Ensure(event: Event, newId: string)
    | Count(event: Event, newId: string)
    | Edit(id: string, name: string, notes: string)
    | Remove(id: string, barberId: string)

  function KeyOf(e: Event): Key {
    (e.barberId, e.clientPhone)
  }

  /** GREATEST ignores null. */
  function Greatest(a: Option<int>, b: int): Option<int> {
    match a
    case None => Some(b)
    case Some(v) => Some(if v < b then b else v)
  }

  function Ensured(db: Db, e: Event, newId: string): Db {
    var k := KeyOf(e);
    db.(clients := db.clients[k := if k in db.clients then db.clients[k].(name := e.clientName)
                                   else Client(newId, e.clientName, "", 0, None)])
  }

  function Counted(db: Db, e: Event, newId: string): Db {
    var k := KeyOf(e);
    if e.bookingId in db.processed then db
    else if k in db.clients then
      var c := db.clients[k];
      Db(db.clients[k := c.(name := e.clientName, visits := c.visits + 1, lastVisit := Greatest(c.lastVisit, e.occurredAt))],
         db.processed + {e.bookingId})
    else
      Db(db.clients[k := Client(newId, e.clientName, "", 1, Some(e.occurredAt))], db.processed + {e.bookingId})
  }

  function Removes(db: Db, w: Write, k: Key): bool {
    w.Remove? && k in db.clients && db.clients[k].id == w.id && k.0 == w.barberId
  }

  function Edited(c: Client, id: string, name: string, notes: string): Client {
    if c.id == id then c.(name := name, notes := notes) else c
  }

  function Apply(db: Db, w: Write): Db {
    match w
    case Ensure(e, newId) => Ensured(db, e, newId)
    case Count(e, newId) => Counted(db, e, newId)
    case Edit(id, name, notes) =>
      db.(clients := map k | k in db.clients :: Edited(db.clients[k], id, name, notes))
    case Remove(_, _) => db.(clients := map k | k in db.clients && !Removes(db, w, k) :: db.clients[k])
  }

  /** The tables after the first n writes, from empty. */
  function TablesAfter(ws: seq<Write>, n: nat): Db
    requires n <= |ws|
  {
    if n == 0 then Db(map[], {}) else Apply(TablesAfter(ws, n - 1), ws[n - 1])
  }

  // ---- the statements, column by column ----

  /** Only this client's row may differ. */
  ghost predicate OthersStay(db: Db, db': Db, k: Key) {
    db'.clients.Keys == db.clients.Keys + {k} && forall j :: j in db.clients && j != k ==> db'.clients[j] == db.clients[j]
  }

  /** The row is renamed; its id and notes stay. */
  predicate RenamedTo(c: Client, c': Client, name: string) {
    c'.id == c.id && c'.notes == c.notes && c'.name == name
  }

  /** Ensuring a client creates a row without visits or changes the name of the one there is. */
  lemma EnsureIsPlain(db: Db, e: Event, newId: string)
    ensures var k := (e.barberId, e.clientPhone);
            var db' := Apply(db, Ensure(e, newId));
            && OthersStay(db, db', k) && db'.processed == db.processed
            && if k in db.clients
               then RenamedTo(db.clients[k], db'.clients[k], e.clientName)
                    && db'.clients[k].visits == db.clients[k].visits && db'.clients[k].lastVisit == db.clients[k].lastVisit
               else db'.clients[k] == Client(newId, e.clientName, "", 0, None)
  {
  }

  /** Counting a booking the first time adds a visit and moves the last visit forward; later nothing changes. */
  lemma CountIsPlain(db: Db, e: Event, newId: string)
    ensures var k := (e.barberId, e.clientPhone);
            var db' := Apply(db, Count(e, newId));
            if e.bookingId in db.processed then db' == db
            else
              && OthersStay(db, db', k) && db'.processed == db.processed + {e.bookingId}
              && db'.clients[k].lastVisit.Some? && e.occurredAt <= db'.clients[k].lastVisit.value
              && if k in db.clients
                 then RenamedTo(db.clients[k], db'.clients[k], e.clientName)
                      && db'.clients[k].visits == db.clients[k].visits + 1
                      && (db.clients[k].lastVisit == None ==> db'.clients[k].lastVisit == Some(e.occurredAt))
                      && (db.clients[k].lastVisit.Some? ==>
                            db.clients[k].lastVisit.value <= db'.clients[k].lastVisit.value
                            && db'.clients[k].lastVisit in {db.clients[k].lastVisit, Some(e.occurredAt)})
                 else db'.clients[k] == Client(newId, e.clientName, "", 1, Some(e.occurredAt))
  {
  }

  /** Staff edits names and notes by id; deleting takes the row of that barber with that id. */
  lemma StaffWritesArePlain(db: Db, id: string, name: string, notes: string, barberId: string)
    ensures var db' := Apply(db, Edit(id, name, notes));
            && db'.clients.Keys == db.clients.Keys && db'.processed == db.processed
            && forall k :: k in db.clients ==>
                             db'.clients[k] == if db.clients[k].id == id then db.clients[k].(name := name, notes := notes)
                                               else db.clients[k]
    ensures var db' := Apply(db, Remove(id, barberId));
            && db'.processed == db.processed
            && (forall k :: k in db'.clients <==> k in db.clients && !(db.clients[k].id == id && k.0 == barberId))
            && forall k :: k in db'.clients ==> db'.clients[k] == db.clients[k]
  {
  }

  class ClientRepo {
    var clients: map<Key, Client>
    var processed: set<string>
    ghost var history: seq<Write>

    ghost predicate Valid()
      reads this
    {
      Db(clients, processed) == TablesAfter(history, |history|)
    }

    constructor ()
      ensures Valid() && history == []
    {
      clients, processed, history := map[], {}, [];
    }

    method EnsureClient(e: Event, newId: string)
      requires Valid()
      modifies this
      ensures Valid() && history == old(history) + [Ensure(e, newId)]
      ensures Db(clients, processed) == Apply(old(Db(clients, processed)), Ensure(e, newId))
    {
      var k := KeyOf(e);
      if k in clients {
        clients := clients[k := clients[k].(name := e.clientName)];
      } else {
        clients := clients[k := Client(newId, e.clientName, "", 0, None)];
      }
      history := history + [Ensure(e, newId)];
      Extend(old(history), Ensure(e, newId));
    }

    /** Marks the booking as processed; only the first time does it count the visit. */
    method UpsertByBooking(e: Event, newId: string)
      requires Valid()
      modifies this
      ensures Valid() && history == old(history) + [Count(e, newId)]
      ensures Db(clients, processed) == Apply(old(Db(clients, processed)), Count(e, newId))
    {
      ghost var before := Db(clients, processed);
      if e.bookingId !in processed {
        processed := processed + {e.bookingId};
        var k := KeyOf(e);
        if k in clients {
          var c := clients[k];
          c := c.(name := e.clientName, visits := c.visits + 1);
          c := c.(lastVisit := Greatest(c.lastVisit, e.occurredAt));
          clients := clients[k := c];
        } else {
          clients := clients[k := Client(newId, e.clientName, "", 1, Some(e.occurredAt))];
        }
      }
      assert Db(clients, processed) == Apply(before, Count(e, newId));
      history := history + [Count(e, newId)];
      Extend(old(history), Count(e, newId));
    }

    method Delete(id: string, barberId: string) returns (found: bool)
      requires Valid()
      modifies this
      ensures Valid() && history == old(history) + [Remove(id, barberId)]
      ensures Db(clients, processed) == Apply(old(Db(clients, processed)), Remove(id, barberId))
      ensures found <==> exists k :: k in old(clients) && old(clients)[k].id == id && k.0 == barberId
    {
      var kept := map k | k in clients && !(clients[k].id == id && k.0 == barberId) :: clients[k];
      found := kept != clients;
      clients := kept;
      history := history + [Remove(id, barberId)];
      Extend(old(history), Remove(id, barberId));
    }
  }

  lemma {:induction false} SamePast(ws: seq<Write>, us: seq<Write>, n: nat)
    requires n <= |ws| && ws <= us
    ensures TablesAfter(ws, n) == TablesAfter(us, n)
  {
    if n == 0 {
    } else {
      SamePast(ws, us, n - 1);
    }
  }

  lemma Extend(ws: seq<Write>, w: Write)
    ensures TablesAfter(ws + [w], |ws| + 1) == Apply(TablesAfter(ws, |ws|), w)
  {
    SamePast(ws, ws + [w], |ws|);
  }

  // ---- the consumer ----

  /** Every write of `more` repeats w. */
  ghost predicate Repeats(more: seq<Write>, w: Write) {
    forall i :: 0 <= i < |more| ==> more[i] == w
  }

  /** Each attempt that takes effect repeats the write. */
  method RetryInsert(repo: ClientRepo, w: Write, attempts: seq<Attempt>, cancelledAt: nat)
    returns (ok: bool, failures: nat, waited: int, ghost more: seq<Write>)
    requires repo.Valid() && (w.Ensure? || w.Count?) && |attempts| == MAX_RETRIES
    modifies repo
    ensures repo.Valid() && repo.history == old(repo.history) + more && Repeats(more, w)
    ensures Retried(attempts, cancelledAt, ok, failures, waited, |more|)
  {
    var wait := RETRY_BASE_WAIT;
    failures, waited, more := 0, 0, [];
    while failures < MAX_RETRIES
      invariant failures <= MAX_RETRIES
      invariant wait == RETRY_BASE_WAIT * Pow2(failures) && waited == wait - RETRY_BASE_WAIT
      invariant repo.Valid() && repo.history == old(repo.history) + more && Repeats(more, w)
      invariant forall i :: 0 <= i < failures ==> attempts[i] != Succeeds
      invariant |more| == Effects(attempts[..failures])
    {
      var a := attempts[failures];
      assert attempts[..failures + 1][..failures] == attempts[..failures];
      if a != FailsBefore {
        Perform(repo, w);
        more := more + [w];
      }
      if a == Succeeds {
        return true, failures, waited, more;
      }
      if failures + 1 == cancelledAt {
        return false, failures, waited, more;
      }
      waited := waited + wait;
      wait := wait * 2;
      failures := failures + 1;
    }
    assert attempts[..failures] == attempts;
    ok := false;
  }

  method Perform(repo: ClientRepo, w: Write)
    requires repo.Valid() && (w.Ensure? || w.Count?)
    modifies repo
    ensures repo.Valid() && repo.history == old(repo.history) + [w]
  {
    if w.Ensure? {
      repo.EnsureClient(w.event, w.newId);
    } else {
      repo.UpsertByBooking(w.event, w.newId);
    }
  }

  /** One delivery of one message: make sure the client exists, then count a completed visit. */
  method Process(repo: ClientRepo, e: Event, newId: string, first: seq<Attempt>, second: seq<Attempt>,
                 firstCancel: nat, secondCancel: nat)
    returns (ok: bool, ghost ensured: seq<Write>, ghost counts: seq<Write>)
    requires repo.Valid() && |first| == MAX_RETRIES && |second| == MAX_RETRIES
    modifies repo
    ensures repo.Valid() && repo.history == old(repo.history) + ensured + counts
    ensures Repeats(ensured, Ensure(e, newId)) && Repeats(counts, Count(e, newId))
    ensures counts != [] ==> e.status == ProtoCompleted && ensured != []
    ensures ok ==> ensured != [] && (e.status == ProtoCompleted ==> counts != [])
  {
    var failures, waited;
    counts := [];
    ok, failures, waited, ensured := RetryInsert(repo, Ensure(e, newId), first, firstCancel);
    if ok {
      SuccessTookEffect(first, firstCancel, failures, waited, |ensured|);
    }
    if ok && e.status == ProtoCompleted {
      ok, failures, waited, counts := RetryInsert(repo, Count(e, newId), second, secondCancel);
      if ok {
        SuccessTookEffect(second, secondCancel, failures, waited, |counts|);
      }
    }
    assert repo.history == old(repo.history) + ensured + counts;
  }

  // ---- what the counters mean ----

  /** Write i is the first one that counts its booking, and it counts it for this client. */
  predicate Credits(ws: seq<Write>, i: nat, k: Key)
    requires i < |ws|
  {
    && ws[i].Count? && KeyOf(ws[i].event) == k
    && forall j :: 0 <= j < i && ws[j].Count? ==> ws[j].event.bookingId != ws[i].event.bookingId
  }

  /** The client's row has not been deleted by one of the writes i + 1, ..., n - 1. */
  predicate Survives(ws: seq<Write>, i: nat, n: nat, k: Key)
    requires n <= |ws|
  {
    forall j: nat :: i < j < n ==> !Removes(TablesAfter(ws, j), ws[j], k)
  }

  /** The writes among the first n that the client's counter reflects. */
  ghost function Credited(ws: seq<Write>, n: nat, k: Key): set<nat>
    requires n <= |ws|
  {
    set i: nat | i < n && Credits(ws, i, k) && Survives(ws, i, n, k)
  }

  ghost function BookingsOf(ws: seq<Write>, hits: set<nat>): set<string>
    requires forall i :: i in hits ==> i < |ws| && ws[i].Count?
  {
    set i | i in hits :: ws[i].event.bookingId
  }

  lemma {:induction false} ProcessedBookings(ws: seq<Write>, n: nat)
    requires n <= |ws|
    ensures TablesAfter(ws, n).processed == set j: nat | j < n && ws[j].Count? :: ws[j].event.bookingId
  {
    if n == 0 {
    } else {
      ProcessedBookings(ws, n - 1);
      var before := set j: nat | j < n - 1 && ws[j].Count? :: ws[j].event.bookingId;
      var after := set j: nat | j < n && ws[j].Count? :: ws[j].event.bookingId;
      assert after == if ws[n - 1].Count? then before + {ws[n - 1].event.bookingId} else before;
    }
  }

  /** A counting write takes effect exactly when it is the first for its booking. */
  lemma FirstIsUnprocessed(ws: seq<Write>, n: nat)
    requires n < |ws| && ws[n].Count?
    ensures ws[n].event.bookingId !in TablesAfter(ws, n).processed <==> Credits(ws, n, KeyOf(ws[n].event))
  {
    ProcessedBookings(ws, n);
  }

  lemma SurvivesStep(ws: seq<Write>, i: nat, n: nat, k: Key)
    requires i < n < |ws|
    ensures Survives(ws, i, n + 1, k) <==> Survives(ws, i, n, k) && !Removes(TablesAfter(ws, n), ws[n], k)
  {
  }

  /** How the reflected writes change with one more write. */
  lemma CreditedStep(ws: seq<Write>, n: nat, k: Key)
    requires n < |ws|
    ensures Credited(ws, n + 1, k) ==
            if Removes(TablesAfter(ws, n), ws[n], k) then {}
            else if Credits(ws, n, k) then Credited(ws, n, k) + {n}
            else Credited(ws, n, k)
  {
    forall i: nat | i < n {
      SurvivesStep(ws, i, n, k);
    }
  }

  function VisitsOf(db: Db, k: Key): int {
    if k in db.clients then db.clients[k].visits else 0
  }

  function LastVisitOf(db: Db, k: Key): Option<int> {
    if k in db.clients then db.clients[k].lastVisit else None
  }

  /** What one write does to one client's counters. */
  lemma WriteOnClient(db: Db, w: Write, k: Key)
    ensures var counts := w.Count? && KeyOf(w.event) == k && w.event.bookingId !in db.processed;
            var db' := Apply(db, w);
            && VisitsOf(db', k) == (if Removes(db, w, k) then 0 else VisitsOf(db, k) + if counts then 1 else 0)
            && LastVisitOf(db', k) == (if Removes(db, w, k) then None
                                       else if counts then Greatest(LastVisitOf(db, k), w.event.occurredAt)
                                       else LastVisitOf(db, k))
  {
  }

  /** In every history, whatever was repeated, reordered or retried: a client's row counts exactly the
      bookings first counted for it since it was last deleted, and last_visit is the latest of their
      first processed events. A client without a row has nothing to count. */
  lemma VisitsAreExact(ws: seq<Write>, n: nat, k: Key)
    requires n <= |ws|
    ensures VisitsOf(TablesAfter(ws, n), k) == |Credited(ws, n, k)|
    ensures IsLatest(ws, Credited(ws, n, k), LastVisitOf(TablesAfter(ws, n), k))
  {
    CountIsExact(ws, n, k);
    LatestIsExact(ws, n, k);
  }

  lemma {:induction false} CountIsExact(ws: seq<Write>, n: nat, k: Key)
    requires n <= |ws|
    ensures VisitsOf(TablesAfter(ws, n), k) == |Credited(ws, n, k)|
  {
    if n == 0 {
    } else {
      CountIsExact(ws, n - 1, k);
      CreditedStep(ws, n - 1, k);
      CounterStep(ws, n - 1, k);
    }
  }

  lemma {:induction false} LatestIsExact(ws: seq<Write>, n: nat, k: Key)
    requires n <= |ws|
    ensures IsLatest(ws, Credited(ws, n, k), LastVisitOf(TablesAfter(ws, n), k))
  {
    if n == 0 {
    } else {
      LatestIsExact(ws, n - 1, k);
      CreditedStep(ws, n - 1, k);
      CounterStep(ws, n - 1, k);
      if Credits(ws, n - 1, k) {
        LatestOfMore(ws, Credited(ws, n - 1, k), n - 1, LastVisitOf(TablesAfter(ws, n - 1), k));
      }
    }
  }

  /** Write n moves the client's counters when it is the first for its booking. */
  lemma CounterStep(ws: seq<Write>, n: nat, k: Key)
    requires n < |ws|
    ensures var db, db' := TablesAfter(ws, n), TablesAfter(ws, n + 1);
            && VisitsOf(db', k) == (if Removes(db, ws[n], k) then 0 else VisitsOf(db, k) + if Credits(ws, n, k) then 1 else 0)
            && LastVisitOf(db', k) == (if Removes(db, ws[n], k) then None
                                       else if Credits(ws, n, k) then Greatest(LastVisitOf(db, k), ws[n].event.occurredAt)
                                       else LastVisitOf(db, k))
  {
    WriteOnClient(TablesAfter(ws, n), ws[n], k);
    if ws[n].Count? {
      FirstIsUnprocessed(ws, n);
    }
  }

  ghost predicate IsLatest(ws: seq<Write>, hits: set<nat>, last: Option<int>)
    requires forall i :: i in hits ==> i < |ws| && ws[i].Count?
  {
    match last
    case None => hits == {}
    case Some(v) => (exists i :: i in hits && ws[i].event.occurredAt == v)
                    && forall i :: i in hits ==> ws[i].event.occurredAt <= v
  }

  lemma LatestOfMore(ws: seq<Write>, hits: set<nat>, n: nat, last: Option<int>)
    requires n < |ws| && ws[n].Count? && forall i :: i in hits ==> i < |ws| && ws[i].Count?
    requires IsLatest(ws, hits, last)
    ensures IsLatest(ws, hits + {n}, Greatest(last, ws[n].event.occurredAt))
  {
    if last.Some? {
      var i :| i in hits && ws[i].event.occurredAt == last.value;
      assert i in hits + {n};
    }
    assert n in hits + {n};
  }

  /** The reflected writes belong to different bookings, so counting writes is counting bookings. */
  lemma CountsDistinctBookings(ws: seq<Write>, n: nat, k: Key)
    requires n <= |ws|
    ensures |BookingsOf(ws, Credited(ws, n, k))| == |Credited(ws, n, k)|
  {
    DistinctImages(ws, Credited(ws, n, k), k);
  }

  lemma {:induction false} DistinctImages(ws: seq<Write>, hits: set<nat>, k: Key)
    requires forall i :: i in hits ==> i < |ws| && ws[i].Count? && Credits(ws, i, k)
    ensures |BookingsOf(ws, hits)| == |hits|
  {
    if hits == {} {
    } else {
      var i :| i in hits;
      DistinctImages(ws, hits - {i}, k);
      forall j | j in hits - {i}
        ensures ws[j].event.bookingId != ws[i].event.bookingId
      {
        assert j < i || i < j;
      }
      assert BookingsOf(ws, hits) == BookingsOf(ws, hits - {i}) + {ws[i].event.bookingId};
    }
  }

  /** A booking always belongs to the same client, and no client is deleted. */
  ghost predicate Settled(ws: seq<Write>) {
    && (forall i :: 0 <= i < |ws| ==> !ws[i].Remove?)
    && (forall i, j :: 0 <= i < |ws| && 0 <= j < |ws| && ws[i].Count? && ws[j].Count? ==>
          ws[i].event.bookingId == ws[j].event.bookingId ==> KeyOf(ws[i].event) == KeyOf(ws[j].event))
  }

  ghost function CompletedBookings(ws: seq<Write>, k: Key): set<string> {
    set i: nat | i < |ws| && ws[i].Count? && KeyOf(ws[i].event) == k :: ws[i].event.bookingId
  }

  lemma {:induction false} FirstCount(ws: seq<Write>, i: nat) returns (j: nat)
    requires i < |ws| && ws[i].Count?
    ensures j <= i && ws[j].Count? && ws[j].event.bookingId == ws[i].event.bookingId
    ensures Credits(ws, j, KeyOf(ws[j].event))
  {
    if Credits(ws, i, KeyOf(ws[i].event)) {
      j := i;
    } else {
      var e: nat :| e < i && ws[e].Count? && ws[e].event.bookingId == ws[i].event.bookingId;
      j := FirstCount(ws, e);
    }
  }

  /** Exactly once: visits_count is the number of distinct bookings of the client that were processed
      as completed, however often and in whatever order their events came. */
  lemma ExactlyOnce(ws: seq<Write>, k: Key)
    requires Settled(ws)
    ensures VisitsOf(TablesAfter(ws, |ws|), k) == |CompletedBookings(ws, k)|
  {
    VisitsAreExact(ws, |ws|, k);
    CountsDistinctBookings(ws, |ws|, k);
    var credited := Credited(ws, |ws|, k);
    forall b | b in CompletedBookings(ws, k)
      ensures b in BookingsOf(ws, credited)
    {
      var i: nat :| i < |ws| && ws[i].Count? && KeyOf(ws[i].event) == k && ws[i].event.bookingId == b;
      var j := FirstCount(ws, i);
      assert j in credited;
    }
    assert BookingsOf(ws, credited) == CompletedBookings(ws, k);
  }

  // ---- the counters add up ----

  ghost function PickKey(keys: set<Key>): (k: Key)
    requires keys != {}
    ensures k in keys
  {
    var k :| k in keys; k
  }

  ghost function TotalVisits(clients: map<Key, Client>, keys: set<Key>): int
    requires keys <= clients.Keys
  {
    if keys == {} then 0
    else var k := PickKey(keys); clients[k].visits + TotalVisits(clients, keys - {k})
  }

  /** The total does not depend on the order of summation. */
  lemma {:induction false} TotalSplit(clients: map<Key, Client>, keys: set<Key>, k: Key)
    requires keys <= clients.Keys && k in keys
    ensures TotalVisits(clients, keys) == clients[k].visits + TotalVisits(clients, keys - {k})
    decreases |keys|
  {
    var p := PickKey(keys);
    if p != k {
      TotalSplit(clients, keys - {p}, k);
      TotalSplit(clients, keys - {k}, p);
      assert keys - {p} - {k} == keys - {k} - {p};
    }
  }

  lemma {:induction false} TotalSame(a: map<Key, Client>, b: map<Key, Client>, keys: set<Key>)
    requires keys <= a.Keys && keys <= b.Keys
    requires forall k :: k in keys ==> a[k].visits == b[k].visits
    ensures TotalVisits(a, keys) == TotalVisits(b, keys)
    decreases |keys|
  {
    if keys == {} {
    } else {
      TotalSame(a, b, keys - {PickKey(keys)});
    }
  }

  /** Writing one row changes the total by the change of that row. */
  lemma TotalAfterWrite(clients: map<Key, Client>, k: Key, c: Client)
    ensures TotalVisits(clients[k := c], clients[k := c].Keys) ==
            TotalVisits(clients, clients.Keys) + c.visits - if k in clients then clients[k].visits else 0
  {
    var clients' := clients[k := c];
    TotalSplit(clients', clients'.Keys, k);
    TotalSame(clients, clients', clients'.Keys - {k});
    if k in clients {
      TotalSplit(clients, clients.Keys, k);
      assert clients'.Keys - {k} == clients.Keys - {k};
    } else {
      assert clients'.Keys - {k} == clients.Keys;
    }
  }

  /** While no client is deleted, the visit counters sum to the number of processed bookings. */
  lemma {:induction false} VisitsSumToProcessed(ws: seq<Write>, n: nat)
    requires n <= |ws| && forall i :: 0 <= i < n ==> !ws[i].Remove?
    ensures var db := TablesAfter(ws, n); TotalVisits(db.clients, db.clients.Keys) == |db.processed|
  {
    if n == 0 {
    } else {
      VisitsSumToProcessed(ws, n - 1);
      WriteKeepsSum(TablesAfter(ws, n - 1), ws[n - 1]);
    }
  }

  lemma WriteKeepsSum(db: Db, w: Write)
    requires !w.Remove? && TotalVisits(db.clients, db.clients.Keys) == |db.processed|
    ensures TotalVisits(Apply(db, w).clients, Apply(db, w).clients.Keys) == |Apply(db, w).processed|
  {
    var db' := Apply(db, w);
    match w
    case Ensure(e, _) =>
      TotalAfterWrite(db.clients, KeyOf(e), db'.clients[KeyOf(e)]);
    case Count(e, _) =>
      if e.bookingId !in db.processed {
        TotalAfterWrite(db.clients, KeyOf(e), db'.clients[KeyOf(e)]);
      }
    case Edit(_, _, _) =>
      assert db'.clients.Keys == db.clients.Keys;
      TotalSame(db.clients, db'.clients, db.clients.Keys);
  }
}
