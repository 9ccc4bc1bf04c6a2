/**
 The booking service on top of the repository: it looks the service up, fills in the derived
 fields of a booking, calls one transaction and publishes one event per stored change.
 `Step` is the state machine of these operations; the class performs its steps.
 */
module BookingService {
  import opened Wrappers
  import opened Instants
  import opened BookingStore

  datatype ProtoStatus = ProtoUnspecified | ProtoPending | ProtoCompleted | ProtoCancelled | ProtoNoShow

  datatype Event = Event(
    bookingId: string,
    barberId: string,
    clientPhone: string,
    clientName: string,
    serviceId: string,
    serviceName: string,
    price: int,
    timeStart: int,
    timeEnd: int,
    status: ProtoStatus,
    occurredAt: int)

  datatype Service = Service(id: string, name: string, price: int, durationMinutes: int)

  datatype Request = Request(clientName: string, clientPhone: string, barberId: string, serviceId: string, timeStart: int)

  // Answers of the staff service (`barberKnown`, `services`), the fresh id and the clock are inputs.
  datatype Op =
    | Create(req: Request, barberKnown: bool, services: Option<seq<Service>>, newId: string, now: int)
    | Reschedule(id: string, barberId: string, serviceId: string, timeStart: int, services: Option<seq<Service>>, now: int)
    | SetStatus(id: string, barberId: string, status: Status, now: int)
    | Delete(id: string, barberId: string)

  datatype AppError = AppNotFound | AppAlreadyExists | AppInternal

  datatype Reply = Done(booking: Booking) | Deleted | Failed(error: AppError)

  datatype State = State(rows: Table, published: seq<Event>)

  function StatusToProto(s: Status): ProtoStatus {
    match s
    case Pending => ProtoPending
    case Completed => ProtoCompleted
    case Cancelled => ProtoCancelled
    case NoShow => ProtoNoShow
    case OtherStatus(_) => ProtoUnspecified
  }

  function EventOf(b: Booking, now: int): Event {
    Event(b.id, b.barberId, b.clientPhone, b.clientName, b.serviceId, b.serviceName, b.price,
          b.timeStart, b.timeEnd, StatusToProto(b.status), now)
  }

  function EndOf(start: int, svc: Service): int {
    start + svc.durationMinutes * MINUTE
  }

  function NewBooking(req: Request, svc: Service, newId: string): Booking {
    Booking(newId, req.clientName, req.clientPhone, req.barberId, req.serviceId, svc.name, svc.price,
            UtcDay(req.timeStart), req.timeStart, EndOf(req.timeStart, svc), Pending)
  }

  /** svc is the first entry of the list with this id. */
  ghost predicate IsFirstWithId(services: seq<Service>, id: string, found: Option<Service>) {
    match found
    case None => forall i :: 0 <= i < |services| ==> services[i].id != id
    case Some(svc) => exists i :: 0 <= i < |services| && services[i] == svc && svc.id == id
                                  && forall j :: 0 <= j < i ==> services[j].id != id
  }

  function FindService(services: seq<Service>, id: string): (found: Option<Service>)
    ensures IsFirstWithId(services, id, found)
  {
    if services == [] then None
    else if services[0].id == id then Some(services[0])
    else
      var rest := FindService(services[1..], id);
      assert rest.None? ==> forall i :: 0 < i < |services| ==> services[i] == services[1..][i - 1];
      assert rest.Some? ==>
          forall i :: 0 <= i < |services[1..]| ==> services[i + 1] == services[1..][i];
      rest
  }

  function ErrorOf(o: Outcome): AppError {
    match o
    case ActiveBookingExists => AppAlreadyExists
    case SlotConflict => AppAlreadyExists
    case NotFound => AppNotFound
    case _ => AppInternal
  }

  /** The row addressed by (id, barberId), if the caller owns it. */
  function Owned(rows: Table, id: string, barberId: string): Option<Booking> {
    if id in rows && rows[id].barberId == barberId then Some(rows[id]) else None
  }

  function Store(st: State, b: Booking, now: int): State {
    State(st.rows[b.id := b], st.published + [EventOf(b, now)])
  }

  ghost function CreateStep(st: State, op: Op): (State, Reply)
    requires op.Create?
  {
    if !op.barberKnown then (st, Failed(AppNotFound))
    else if op.services.None? then (st, Failed(AppInternal))
    else match FindService(op.services.value, op.req.serviceId)
      case None => (st, Failed(AppNotFound))
      case Some(svc) =>
        var b := NewBooking(op.req, svc, op.newId);
        var o := CreateOutcome(st.rows, b);
        if o == Ok then (Store(st, b, op.now), Done(b)) else (st, Failed(ErrorOf(o)))
  }

  ghost function RescheduleStep(st: State, op: Op): (State, Reply)
    requires op.Reschedule?
  {
    match Owned(st.rows, op.id, op.barberId)
    case None => (st, Failed(AppNotFound))
    case Some(row) =>
      if op.services.None? then (st, Failed(AppInternal))
      else match FindService(op.services.value, op.serviceId)
        case None => (st, Failed(AppNotFound))
        case Some(svc) =>
          var end := EndOf(op.timeStart, svc);
          var o := RescheduleOutcome(st.rows, op.id, op.timeStart, end);
          var b := Rescheduled(row, op.serviceId, svc.name, svc.price, op.timeStart, end);
          if o == Ok then (Store(st, b, op.now), Done(b)) else (st, Failed(ErrorOf(o)))
  }

  ghost function SetStatusStep(st: State, op: Op): (State, Reply)
    requires op.SetStatus?
  {
    match Owned(st.rows, op.id, op.barberId)
    case None => (st, Failed(AppNotFound))
    case Some(row) =>
      if row.status == op.status then (st, Done(row))
      else if SetStatusOutcome(st.rows, op.id, op.status) == Ok
      then (Store(st, row.(status := op.status), op.now), Done(row.(status := op.status)))
      else (st, Failed(AppInternal))
  }

  ghost function DeleteStep(st: State, op: Op): (State, Reply)
    requires op.Delete?
  {
    match Owned(st.rows, op.id, op.barberId)
    case None => (st, Failed(AppNotFound))
    case Some(_) => (st.(rows := st.rows - {op.id}), Deleted)
  }

  ghost function Step(st: State, op: Op): (State, Reply) {
    match op
    case Create(_, _, _, _, _) => CreateStep(st, op)
    case Reschedule(_, _, _, _, _, _) => RescheduleStep(st, op)
    case SetStatus(_, _, _, _) => SetStatusStep(st, op)
    case Delete(_, _) => DeleteStep(st, op)
  }

  ghost function After(st: State, op: Op): State {
    Step(st, op).0
  }

  function NowOf(op: Op): int {
    if op.Delete? then 0 else op.now
  }

  /** The service a call works with, if the staff service answered and knows it. */
  function Chosen(services: Option<seq<Service>>, id: string): Option<Service> {
    if services.None? then None else FindService(services.value, id)
  }

  /** The row a call's transaction writes, whatever the call read before; none if it is refused. */
  ghost function TxRow(rows: Table, op: Op): Option<Booking> {
    match op
    case Create(req, barberKnown, services, newId, _) =>
      var svc := Chosen(services, req.serviceId);
      if barberKnown && svc.Some? && CreateOutcome(rows, NewBooking(req, svc.value, newId)) == Ok
      then Some(NewBooking(req, svc.value, newId)) else None
    case Reschedule(id, _, serviceId, start, services, _) =>
      var svc := Chosen(services, serviceId);
      if svc.Some? && RescheduleOutcome(rows, id, start, EndOf(start, svc.value)) == Ok
      then Some(Rescheduled(rows[id], serviceId, svc.value.name, svc.value.price, start, EndOf(start, svc.value)))
      else None
    case SetStatus(id, _, status, _) =>
      if SetStatusOutcome(rows, id, status) == Ok then Some(rows[id].(status := status)) else None
    case Delete(_, _) => None
  }

  /** The call gets past what it reads first: it addresses its own barber's row and asks for a change. */
  predicate PassesChecks(rows: Table, op: Op) {
    op.Create? || (Owned(rows, op.id, op.barberId).Some? && (op.SetStatus? ==> rows[op.id].status != op.status))
  }

  /** The row the operation stores, if it stores one. */
  ghost function Accepted(rows: Table, op: Op): Option<Booking> {
    if PassesChecks(rows, op) then TxRow(rows, op) else None
  }

  /** A step stores the accepted row and publishes it, or drops a row, or does nothing. */
  lemma StepStoresAccepted(st: State, op: Op)
    requires WellKeyed(st.rows)
    ensures After(st, op) ==
            match Accepted(st.rows, op)
            case Some(b) => Store(st, b, NowOf(op))
            case None => if op.Delete? && PassesChecks(st.rows, op) then st.(rows := st.rows - {op.id}) else st
    ensures Accepted(st.rows, op).Some? ==> Accepted(st.rows, op).value.id == if op.Create? then op.newId else op.id
  {
  }

  /** A run: consecutive states linked by operations, one at a time. */
  ghost predicate IsRun(states: seq<State>, ops: seq<Op>) {
    && |states| == |ops| + 1
    && WellKeyed(states[0].rows)
    && forall i :: 0 <= i < |ops| ==> states[i + 1] == After(states[i], ops[i])
  }

  class BookingServer {
    const repo: BookingRepo
    var published: seq<Event>

    ghost predicate Valid()
      reads this, repo
    {
      repo.Valid()
    }

    ghost function View(): State
      reads this, repo
    {
      State(repo.rows, published)
    }

    constructor (repo: BookingRepo)
      requires repo.Valid()
      ensures Valid() && this.repo == repo && View() == State(repo.rows, [])
    {
      this.repo := repo;
      published := [];
    }

    /** Sets the derived fields of a new booking from the first service with the requested id. */
    method CreateBooking(req: Request, barberKnown: bool, services: Option<seq<Service>>, newId: string, now: int)
      returns (reply: Reply)
      requires Valid()
      modifies this, repo
      ensures Valid()
      ensures (View(), reply) == Step(old(View()), Create(req, barberKnown, services, newId, now))
    {
      if !barberKnown {
        return Failed(AppNotFound);
      }
      if services.None? {
        return Failed(AppInternal);
      }
      var found := LookUp(services.value, req.serviceId);
      if found.None? {
        return Failed(AppNotFound);
      }
      var b := Booking(newId, req.clientName, req.clientPhone, req.barberId, req.serviceId, "", 0, 0,
                       req.timeStart, 0, Pending);
      b := b.(serviceName := found.value.name, price := found.value.price);
      b := b.(timeEnd := b.timeStart + found.value.durationMinutes * MINUTE);
      b := b.(date := UtcDay(b.timeStart));
      var o := repo.CreateBookingTx(b);
      if o != Ok {
        return Failed(ErrorOf(o));
      }
      published := published + [EventOf(b, now)];
      reply := Done(b);
    }

    method UpdateBookingDetails(id: string, barberId: string, serviceId: string, timeStart: int,
                                services: Option<seq<Service>>, now: int)
      returns (reply: Reply)
      requires Valid()
      modifies this, repo
      ensures Valid()
      ensures (View(), reply) == Step(old(View()), Reschedule(id, barberId, serviceId, timeStart, services, now))
    {
      if id !in repo.rows || repo.rows[id].barberId != barberId {
        return Failed(AppNotFound);
      }
      if services.None? {
        return Failed(AppInternal);
      }
      var found := LookUp(services.value, serviceId);
      if found.None? {
        return Failed(AppNotFound);
      }
      var svc := found.value;
      var o := repo.UpdateBookingDetailsTx(id, serviceId, svc.name, svc.price, timeStart, EndOf(timeStart, svc));
      if o != Ok {
        return Failed(ErrorOf(o));
      }
      var updated := repo.rows[id];
      published := published + [EventOf(updated, now)];
      reply := Done(updated);
    }

    /** A change to the status the booking already has writes nothing and publishes nothing. */
    method UpdateBookingStatus(id: string, barberId: string, status: Status, now: int) returns (reply: Reply)
      requires Valid()
      modifies this, repo
      ensures Valid()
      ensures (View(), reply) == Step(old(View()), SetStatus(id, barberId, status, now))
    {
      if id !in repo.rows || repo.rows[id].barberId != barberId {
        return Failed(AppNotFound);
      }
      if repo.rows[id].status == status {
        return Done(repo.rows[id]);
      }
      var o := repo.UpdateBookingStatus(id, status);
      if o != Ok {
        return Failed(AppInternal);
      }
      var updated := repo.rows[id];
      published := published + [EventOf(updated, now)];
      reply := Done(updated);
    }

    /** Deleting publishes nothing. */
    method DeleteBooking(id: string, barberId: string) returns (reply: Reply)
      requires Valid()
      modifies this, repo
      ensures Valid()
      ensures (View(), reply) == Step(old(View()), Delete(id, barberId))
    {
      if id !in repo.rows || repo.rows[id].barberId != barberId {
        return Failed(AppNotFound);
      }
      var o := repo.DeleteBooking(id);
      if o != Ok {
        return Failed(ErrorOf(o));
      }
      reply := Deleted;
    }
  }

  /** The scan of the service list: the first match wins. */
  method LookUp(services: seq<Service>, id: string) returns (found: Option<Service>)
    ensures found == FindService(services, id)
  {
    for i := 0 to |services|
      invariant FindService(services, id) == FindService(services[i..], id)
    {
      if services[i].id == id {
        return Some(services[i]);
      }
      assert services[i..][1..] == services[i + 1..];
    }
    found := None;
  }
}
