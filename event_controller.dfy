/**
 * The event controller: the seat-reservation handlers `registerForEvent` and
 * `cancelRegistration` over one sequential store of events and registrations,
 * and the pagination metadata and seat counts of the event listing.
 *
 * The handlers are modelled twice, once as a pure step function on the store's
 * contents (`RegisterStep`, `CancelStep`), which the lemmas reason about, and
 * once as methods of the `Store` class that update its two collections field by
 * field in the handlers' own order and are proved to perform exactly that step.
 */
module EventController {
  import opened Wrappers
  import opened EventModel
  import opened RegistrationModel

  /** The contents of the store: the events by id and the registrations by (user, event). */
  datatype State = State(events: map<Id, Event>, regs: map<Key, Registration>)

  /** Every stored document satisfies its schema and sits under its own key. */
  predicate WellFormed(s: State)
  {
    && (forall id :: id in s.events ==> s.events[id].id == id && SchemaValid(s.events[id]))
    && IndexConsistent(s.regs)
  }

  /** No event has more seats taken than it has seats (nor fewer than none). */
  predicate CountsInRange(s: State)
  {
    forall id :: id in s.events ==> 0 <= s.events[id].registeredCount <= s.events[id].capacity
  }

  // ------------------------------------------------------------- outcomes

  datatype RegisterOutcome =
    | RegisterOk(availableSeats: int)
    | InvalidEventId
    | EventNotFound
    | PastEvent
    | FullyBooked
    | AlreadyRegistered
    | RegisterError

  datatype CancelOutcome =
    | CancelOk(availableSeats: Option<int>)
    | RegistrationNotFound
    | CancelError

  function RegisterHttpStatus(o: RegisterOutcome): int
  {
    match o
    case RegisterOk(_) => 201
    case InvalidEventId => 400
    case EventNotFound => 404
    case PastEvent => 400
    case FullyBooked => 400
    case AlreadyRegistered => 400
    case RegisterError => 500
  }

  /** The `message` of the register handler's answer for each outcome. */
  function RegisterMessage(o: RegisterOutcome): string
  {
    match o
    case RegisterOk(_) => "Successfully registered for event"
    case InvalidEventId => "Invalid event ID"
    case EventNotFound => "Event not found"
    case PastEvent => "Cannot register for a past event"
    case FullyBooked => "Event is fully booked"
    case AlreadyRegistered => "Already registered for this event"
    case RegisterError => "Error registering for event"
  }

  function CancelHttpStatus(o: CancelOutcome): int
  {
    match o
    case CancelOk(_) => 200
    case RegistrationNotFound => 404
    case CancelError => 500
  }

  /** The `message` of the cancel handler's answer for each outcome. */
  function CancelMessage(o: CancelOutcome): string
  {
    match o
    case CancelOk(_) => "Registration cancelled successfully"
    case RegistrationNotFound => "Registration not found"
    case CancelError => "Error cancelling registration"
  }

  /** The response's `success` flag is set exactly for the 2xx statuses. */
  lemma SuccessFlagMatchesStatus(r: RegisterOutcome, c: CancelOutcome)
    ensures r.RegisterOk? <==> 200 <= RegisterHttpStatus(r) < 300
    ensures c.CancelOk? <==> 200 <= CancelHttpStatus(c) < 300
  {
  }

  /**
   * The response message tells the outcomes apart: two answers carry the
   * same message exactly when they are the same outcome, or both successes.
   */
  lemma MessagesTellOutcomesApart(a: RegisterOutcome, b: RegisterOutcome, c: CancelOutcome, d: CancelOutcome)
    ensures RegisterMessage(a) == RegisterMessage(b) <==> (a.RegisterOk? && b.RegisterOk?) || a == b
    ensures CancelMessage(c) == CancelMessage(d) <==> (c.CancelOk? && d.CancelOk?) || c == d
  {
  }

  // --------------------------------------------------------- the two steps

  /** An event with one more seat taken. */
  function TakeSeat(e: Event): Event
  {
    e.(registeredCount := e.registeredCount + 1)
  }

  /** The record a successful registration leaves under (user, eventId). */
  function ActiveRecord(s: State, user: Id, eventId: Id, now: int, freshId: Id): Registration
  {
    if (user, eventId) in s.regs then s.regs[(user, eventId)].(status := Registered, registeredAt := now, cancelledAt := None)
    else Registration(freshId, user, eventId, Registered, now, None)
  }

  /**
   * `registerForEvent` by `user` for `eventId` at time `now`. The checks run in
   * the handler's order: the id's form, the event's existence, its date, its
   * capacity, and only then the user's existing record. `isObjectId` stands for
   * `ObjectId.isValid`; `freshId` is the id a newly created record receives.
   */
  function RegisterStep(s: State, user: Id, eventId: Id, now: int, isObjectId: Id -> bool, freshId: Id)
    : (r: (RegisterOutcome, State))
    ensures !isObjectId(eventId) ==> r.0 == InvalidEventId
    ensures isObjectId(eventId) && eventId !in s.events ==> r.0 == EventNotFound
    ensures isObjectId(eventId) && eventId in s.events && s.events[eventId].date < now ==> r.0 == PastEvent
    ensures isObjectId(eventId) && eventId in s.events && s.events[eventId].date >= now
            && s.events[eventId].registeredCount >= s.events[eventId].capacity
            ==> r.0 == FullyBooked
    ensures r.0 == AlreadyRegistered
            <==> Open(s, eventId, now, isObjectId) && (user, eventId) in s.regs
                 && s.regs[(user, eventId)].status == Registered
    ensures r.0 == RegisterError
            <==> Open(s, eventId, now, isObjectId) && (user, eventId) in s.regs
                 && s.regs[(user, eventId)].status == Attended
    ensures r.0.RegisterOk?
            <==> Open(s, eventId, now, isObjectId)
                 && ((user, eventId) !in s.regs || s.regs[(user, eventId)].status == Cancelled)
    ensures !r.0.RegisterOk? ==> r.1 == s
    ensures r.0.RegisterOk? ==> eventId in s.events
    ensures r.0.RegisterOk? ==> r.1.events == s.events[eventId := TakeSeat(s.events[eventId])]
    ensures r.0.RegisterOk? ==> r.1.regs == s.regs[(user, eventId) := ActiveRecord(s, user, eventId, now, freshId)]
    ensures r.0.RegisterOk? ==> r.0.availableSeats == AvailableSeats(r.1.events[eventId]) >= 0
  {
    if !isObjectId(eventId) then (InvalidEventId, s)
    else if eventId !in s.events then (EventNotFound, s)
    else
      var e := s.events[eventId];
      if e.date < now then (PastEvent, s)
      else if e.registeredCount >= e.capacity then (FullyBooked, s)
      else
        var key := (user, eventId);
        if key in s.regs && s.regs[key].status == Registered then (AlreadyRegistered, s)
        else if key in s.regs && s.regs[key].status == Cancelled then
          var reg := s.regs[key].(status := Registered, registeredAt := now, cancelledAt := None);
          (RegisterOk(AvailableSeats(TakeSeat(e))), State(s.events[eventId := TakeSeat(e)], s.regs[key := reg]))
        else
          match NewRegistration(freshId, CreateInput(user, eventId), now)
          case Failure(_) => (RegisterError, s)
          case Success(reg) =>
            match IndexInsert(s.regs, reg)
            case Failure(_) => (RegisterError, s)
            case Success(regs) =>
              CreateInputIsValid(freshId, user, eventId, now);
              (RegisterOk(AvailableSeats(TakeSeat(e))), State(s.events[eventId := TakeSeat(e)], regs))
  }

  /** The event is open to a new seat: well-formed id, exists, not past, not full. */
  predicate Open(s: State, eventId: Id, now: int, isObjectId: Id -> bool)
  {
    && isObjectId(eventId)
    && eventId in s.events
    && s.events[eventId].date >= now
    && s.events[eventId].registeredCount < s.events[eventId].capacity
  }

  /** On an open event, a cancelled record is reactivated and the seat taken. */
  lemma ReactivateResult(s: State, user: Id, eventId: Id, now: int, isObjectId: Id -> bool, freshId: Id)
    requires Open(s, eventId, now, isObjectId)
    requires (user, eventId) in s.regs && s.regs[(user, eventId)].status == Cancelled
    ensures var e := s.events[eventId];
            var reg := s.regs[(user, eventId)].(status := Registered, registeredAt := now, cancelledAt := None);
            RegisterStep(s, user, eventId, now, isObjectId, freshId)
            == (RegisterOk(AvailableSeats(TakeSeat(e))), State(s.events[eventId := TakeSeat(e)], s.regs[(user, eventId) := reg]))
  {
  }

  /**
   * On an open event where the user has no record or an attended one, a new
   * record is created: a refusal by the schema or by the unique index is an
   * error that changes nothing; otherwise the seat is taken.
   */
  lemma CreateResult(s: State, user: Id, eventId: Id, now: int, isObjectId: Id -> bool, freshId: Id)
    requires Open(s, eventId, now, isObjectId)
    requires (user, eventId) !in s.regs || s.regs[(user, eventId)].status == Attended
    ensures NewRegistration(freshId, CreateInput(user, eventId), now).Failure?
            ==> RegisterStep(s, user, eventId, now, isObjectId, freshId) == (RegisterError, s)
    ensures var created := NewRegistration(freshId, CreateInput(user, eventId), now);
            created.Success? && IndexInsert(s.regs, created.value).Failure?
            ==> RegisterStep(s, user, eventId, now, isObjectId, freshId) == (RegisterError, s)
    ensures var created := NewRegistration(freshId, CreateInput(user, eventId), now);
            var e := s.events[eventId];
            created.Success? && IndexInsert(s.regs, created.value).Success?
            ==> RegisterStep(s, user, eventId, now, isObjectId, freshId)
                == (RegisterOk(AvailableSeats(TakeSeat(e))),
                    State(s.events[eventId := TakeSeat(e)], IndexInsert(s.regs, created.value).value))
  {
  }

  /**
   * `cancelRegistration` by `user` for `eventId` at time `now`. A malformed id
   * makes the registration query throw (a cast error), which the handler turns
   * into a 500. The count is lowered only when the event still exists and its
   * count is positive; the response carries no seat count when the event is gone.
   */
  function CancelStep(s: State, user: Id, eventId: Id, now: int, isObjectId: Id -> bool)
    : (r: (CancelOutcome, State))
    ensures !isObjectId(eventId) ==> r.0 == CancelError
    ensures r.0 == RegistrationNotFound
            <==> isObjectId(eventId)
                 && ((user, eventId) !in s.regs || s.regs[(user, eventId)].status != Registered)
    ensures r.0.CancelOk?
            <==> isObjectId(eventId) && (user, eventId) in s.regs && s.regs[(user, eventId)].status == Registered
    ensures !r.0.CancelOk? ==> r.1 == s
    ensures r.0.CancelOk? ==>
              r.1.regs == s.regs[(user, eventId) := s.regs[(user, eventId)].(status := Cancelled, cancelledAt := Some(now))]
    ensures r.0.CancelOk? && eventId in s.events && s.events[eventId].registeredCount > 0 ==>
              r.1.events == s.events[eventId := s.events[eventId].(registeredCount := s.events[eventId].registeredCount - 1)]
    ensures r.0.CancelOk? && (eventId !in s.events || s.events[eventId].registeredCount <= 0) ==>
              r.1.events == s.events
    ensures r.0.CancelOk? ==>
              r.0.availableSeats == if eventId in r.1.events then Some(AvailableSeats(r.1.events[eventId])) else None
  {
    if !isObjectId(eventId) then (CancelError, s)
    else
      var key := (user, eventId);
      if key !in s.regs || s.regs[key].status != Registered then (RegistrationNotFound, s)
      else
        var regs := s.regs[key := s.regs[key].(status := Cancelled, cancelledAt := Some(now))];
        if eventId !in s.events then (CancelOk(None), State(s.events, regs))
        else
          var e := s.events[eventId];
          if e.registeredCount > 0 then
            var e' := e.(registeredCount := e.registeredCount - 1);
            (CancelOk(Some(AvailableSeats(e'))), State(s.events[eventId := e'], regs))
          else
            (CancelOk(Some(AvailableSeats(e))), State(s.events, regs))
  }

  // ------------------------------------------------- properties of one step

  /** A registration keeps every event document valid under its own id. */
  lemma RegisterKeepsDocuments(s: State, user: Id, eventId: Id, now: int, isObjectId: Id -> bool, freshId: Id)
    requires WellFormed(s)
    ensures var t := RegisterStep(s, user, eventId, now, isObjectId, freshId).1;
            forall id :: id in t.events ==> t.events[id].id == id && SchemaValid(t.events[id])
  {
    var r := RegisterStep(s, user, eventId, now, isObjectId, freshId);
    if r.0.RegisterOk? {
      var e := s.events[eventId];
      assert r.1.events == s.events[eventId := TakeSeat(e)];
      RecountKeepsSchema(e, e.registeredCount + 1);
    }
  }

  /** A registration keeps every record under its own (user, event) key. */
  lemma RegisterKeepsIndex(s: State, user: Id, eventId: Id, now: int, isObjectId: Id -> bool, freshId: Id)
    requires WellFormed(s)
    ensures IndexConsistent(RegisterStep(s, user, eventId, now, isObjectId, freshId).1.regs)
  {
    var r := RegisterStep(s, user, eventId, now, isObjectId, freshId);
    if r.0.RegisterOk? {
      var key := (user, eventId);
      assert r.1.regs == s.regs[key := ActiveRecord(s, user, eventId, now, freshId)];
      assert KeyOf(ActiveRecord(s, user, eventId, now, freshId)) == key;
    }
  }

  /** A registration keeps every document valid and every record under its own key. */
  lemma RegisterKeepsWellFormed(s: State, user: Id, eventId: Id, now: int, isObjectId: Id -> bool, freshId: Id)
    requires WellFormed(s)
    ensures WellFormed(RegisterStep(s, user, eventId, now, isObjectId, freshId).1)
  {
    RegisterKeepsDocuments(s, user, eventId, now, isObjectId, freshId);
    RegisterKeepsIndex(s, user, eventId, now, isObjectId, freshId);
  }

  /** A registration never takes a seat beyond the capacity. */
  lemma RegisterKeepsCountsInRange(s: State, user: Id, eventId: Id, now: int, isObjectId: Id -> bool, freshId: Id)
    requires CountsInRange(s)
    ensures CountsInRange(RegisterStep(s, user, eventId, now, isObjectId, freshId).1)
  {
  }

  /** A registration moves exactly one count, that of its event, by exactly +1 when it succeeds, and deletes no record. */
  lemma RegisterMovesOneCount(s: State, user: Id, eventId: Id, now: int, isObjectId: Id -> bool, freshId: Id)
    ensures var (o, t) := RegisterStep(s, user, eventId, now, isObjectId, freshId);
            && t.events.Keys == s.events.Keys
            && t.regs.Keys == s.regs.Keys + (if o.RegisterOk? then {(user, eventId)} else {})
            && (o.RegisterOk? ==> t.events[eventId].registeredCount == s.events[eventId].registeredCount + 1)
            && (forall id :: id in s.events && (id != eventId || !o.RegisterOk?) ==> t.events[id] == s.events[id])
  {
  }

  /** A cancellation keeps every document valid and every record under its own key. */
  lemma CancelKeepsWellFormed(s: State, user: Id, eventId: Id, now: int, isObjectId: Id -> bool)
    requires WellFormed(s)
    ensures WellFormed(CancelStep(s, user, eventId, now, isObjectId).1)
  {
  }

  /** A cancellation never releases a seat below zero. */
  lemma CancelKeepsCountsInRange(s: State, user: Id, eventId: Id, now: int, isObjectId: Id -> bool)
    requires CountsInRange(s)
    ensures CountsInRange(CancelStep(s, user, eventId, now, isObjectId).1)
  {
  }

  /** A cancellation moves at most one count, by -1 and only from a positive count, and deletes no record. */
  lemma CancelMovesOneCount(s: State, user: Id, eventId: Id, now: int, isObjectId: Id -> bool)
    ensures var (o, t) := CancelStep(s, user, eventId, now, isObjectId);
            && t.events.Keys == s.events.Keys && t.regs.Keys == s.regs.Keys
            && (forall id :: id in s.events && id != eventId ==> t.events[id] == s.events[id])
            && (eventId in s.events ==>
                  t.events[eventId].registeredCount
                  == if o.CancelOk? && s.events[eventId].registeredCount > 0
                     then s.events[eventId].registeredCount - 1
                     else s.events[eventId].registeredCount)
  {
  }

  // ------------------------------------------------------------- the store

  /** The two collections the handlers load, change in place and save. */
  class Store {
    var events: map<Id, Event>
    var registrations: map<Key, Registration>

    ghost function Contents(): State
      reads this
    {
      State(events, registrations)
    }

    /** Every document is valid under its own key, and no count leaves `[0, capacity]`. */
    ghost predicate Valid()
      reads this
    {
      WellFormed(Contents()) && CountsInRange(Contents())
    }

    /** A store holding the given valid events and no registrations yet. */
    constructor (initial: map<Id, Event>)
      requires forall id :: id in initial ==>
                 initial[id].id == id && SchemaValid(initial[id]) && initial[id].registeredCount <= initial[id].capacity
      ensures Contents() == State(initial, map[])
      ensures Valid()
    {
      events := initial;
      registrations := map[];
    }

    /** `registerForEvent`: every failure returns before the first write. */
    method Register(user: Id, eventId: Id, now: int, isObjectId: Id -> bool, freshId: Id)
      returns (outcome: RegisterOutcome)
      requires Valid()
      modifies this
      ensures (outcome, Contents()) == RegisterStep(old(Contents()), user, eventId, now, isObjectId, freshId)
      ensures Valid()
    {
      ghost var before := Contents();
      RegisterKeepsWellFormed(before, user, eventId, now, isObjectId, freshId);
      RegisterKeepsCountsInRange(before, user, eventId, now, isObjectId, freshId);
      if !isObjectId(eventId) {
        return InvalidEventId;
      }
      if eventId !in events {
        return EventNotFound;
      }
      var event := events[eventId];
      if event.date < now {
        return PastEvent;
      }
      if event.registeredCount >= event.capacity {
        return FullyBooked;
      }
      outcome := Reserve(user, eventId, now, isObjectId, freshId);
    }

    /**
     * The second half of `registerForEvent`, for an open event: look up the
     * user's record, reactivate a cancelled one or create a new one, then
     * save the event with one more seat taken.
     */
    method Reserve(user: Id, eventId: Id, now: int, isObjectId: Id -> bool, freshId: Id)
      returns (outcome: RegisterOutcome)
      requires Open(Contents(), eventId, now, isObjectId)
      modifies this
      ensures (outcome, Contents()) == RegisterStep(old(Contents()), user, eventId, now, isObjectId, freshId)
    {
      var key := (user, eventId);
      if key in registrations && registrations[key].status == Registered {
        return AlreadyRegistered;
      }
      if key in registrations && registrations[key].status == Cancelled {
        outcome := Reactivate(user, eventId, now, isObjectId, freshId);
      } else {
        // No record, or an attended one: create, which the unique index may refuse.
        outcome := Create(user, eventId, now, isObjectId, freshId);
      }
    }

    /** Reactivate the user's cancelled record, then save the event with one more seat taken. */
    method Reactivate(user: Id, eventId: Id, now: int, isObjectId: Id -> bool, freshId: Id)
      returns (outcome: RegisterOutcome)
      requires Open(Contents(), eventId, now, isObjectId)
      requires (user, eventId) in registrations && registrations[(user, eventId)].status == Cancelled
      modifies this
      ensures (outcome, Contents()) == RegisterStep(old(Contents()), user, eventId, now, isObjectId, freshId)
    {
      ReactivateResult(Contents(), user, eventId, now, isObjectId, freshId);
      var key := (user, eventId);
      var existing := registrations[key];
      existing := existing.(status := Registered);
      existing := existing.(registeredAt := now);
      existing := existing.(cancelledAt := None);
      registrations := registrations[key := existing];
      var event := events[eventId];
      event := event.(registeredCount := event.registeredCount + 1);
      events := events[eventId := event];
      outcome := RegisterOk(AvailableSeats(event));
    }

    /** Create a record for the user, then save the event with one more seat taken. */
    method Create(user: Id, eventId: Id, now: int, isObjectId: Id -> bool, freshId: Id)
      returns (outcome: RegisterOutcome)
      requires Open(Contents(), eventId, now, isObjectId)
      requires (user, eventId) !in registrations || registrations[(user, eventId)].status == Attended
      modifies this
      ensures (outcome, Contents()) == RegisterStep(old(Contents()), user, eventId, now, isObjectId, freshId)
    {
      ghost var before := Contents();
      CreateResult(before, user, eventId, now, isObjectId, freshId);
      var created := NewRegistration(freshId, CreateInput(user, eventId), now);
      if created.Failure? {
        return RegisterError;
      }
      var inserted := IndexInsert(registrations, created.value);
      if inserted.Failure? {
        return RegisterError;
      }
      registrations := inserted.value;
      var event := events[eventId];
      event := event.(registeredCount := event.registeredCount + 1);
      events := events[eventId := event];
      outcome := RegisterOk(AvailableSeats(event));
      assert event == TakeSeat(before.events[eventId]);
      assert Contents() == State(before.events[eventId := event], inserted.value);
    }

    /** `cancelRegistration`: the registration is saved first, the event's count second. */
    method Cancel(user: Id, eventId: Id, now: int, isObjectId: Id -> bool) returns (outcome: CancelOutcome)
      requires Valid()
      modifies this
      ensures (outcome, Contents()) == CancelStep(old(Contents()), user, eventId, now, isObjectId)
      ensures Valid()
    {
      ghost var before := Contents();
      CancelKeepsWellFormed(before, user, eventId, now, isObjectId);
      CancelKeepsCountsInRange(before, user, eventId, now, isObjectId);
      if !isObjectId(eventId) {
        return CancelError;
      }
      var key := (user, eventId);
      if key !in registrations || registrations[key].status != Registered {
        return RegistrationNotFound;
      }
      var registration := registrations[key];
      registration := registration.(status := Cancelled);
      registration := registration.(cancelledAt := Some(now));
      registrations := registrations[key := registration];
      if eventId in events {
        var event := events[eventId];
        if event.registeredCount > 0 {
          event := event.(registeredCount := event.registeredCount - 1);
          events := events[eventId := event];
        }
        outcome := CancelOk(Some(AvailableSeats(event)));
      } else {
        outcome := CancelOk(None);
      }
    }
  }

  // ------------------------------------------------------- the event listing

  /** An event as the listing returns it: the document plus its `availableSeats`. */
  datatype ListedEvent = ListedEvent(event: Event, availableSeats: int)

  /** Each listed event, in order, with `availableSeats = capacity - registeredCount`. */
  function WithSeats(events: seq<Event>): (r: seq<ListedEvent>)
    ensures |r| == |events|
    ensures forall i :: 0 <= i < |r| ==> r[i].event == events[i]
    ensures forall i :: 0 <= i < |r| ==> r[i].availableSeats + events[i].registeredCount == events[i].capacity
  {
    seq(|events|, i requires 0 <= i < |events| => ListedEvent(events[i], AvailableSeats(events[i])))
  }

  /** The `pagination` object of the listing's response. */
  datatype PageMeta = PageMeta(
    currentPage: int,
    totalPages: int,
    totalEvents: nat,
    hasNextPage: bool,
    hasPrevPage: bool,
    limit: int)

  /** How many documents the listing skips to reach page `page`. */
  function Skip(page: int, limit: int): int
  {
    (page - 1) * limit
  }

  /** `Math.ceil(total / limit)` for a positive limit. */
  function CeilDiv(total: nat, limit: int): (q: nat)
    requires limit >= 1
    ensures total <= q * limit
    ensures (q - 1) * limit < total || q == 0
    ensures q == 0 <==> total == 0
  {
    var n := total + limit - 1;
    var q := n / limit;
    assert n == q * limit + n % limit;
    assert (q - 1) * limit == q * limit - limit;
    q
  }

  /** The smaller of two numbers (seats handed out, pages shown). */
  function Min(a: int, b: int): int
  {
    if a <= b then a else b
  }

  lemma MulMonotonic(a: int, b: int, c: int)
    requires a <= b && c >= 1
    ensures a * c <= b * c
  {
    assert b * c - a * c == (b - a) * c;
  }

  lemma PageArithmetic(page: int, limit: int, total: nat, pages: nat)
    requires limit >= 1 && total <= pages * limit && ((pages - 1) * limit < total || pages == 0)
    ensures page < pages <==> page * limit < total
    ensures 1 <= page <= pages ==> 0 <= Skip(page, limit) < total
  {
    if page < pages {
      MulMonotonic(page, pages - 1, limit);
    } else {
      MulMonotonic(pages, page, limit);
    }
    if 1 <= page <= pages {
      MulMonotonic(page - 1, pages - 1, limit);
      MulMonotonic(0, page - 1, limit);
    }
  }

  /**
   * The pagination metadata for page `page` of `total` events, `limit` per
   * page, or `None` for a page below 1: its skip is negative, so the query
   * fails and the listing answers 500. There is a next page exactly when
   * events remain after this one, and every page from 1 to `totalPages`
   * starts at an event that exists.
   */
  function Paginate(page: int, limit: int, total: nat): (r: Option<PageMeta>)
    requires limit >= 1
    ensures r.None? <==> Skip(page, limit) < 0
    ensures r.None? <==> page < 1
    ensures r.Some? ==> r.value.currentPage == page && r.value.totalEvents == total && r.value.limit == limit
    ensures r.Some? ==> (r.value.hasNextPage <==> page * limit < total)
    ensures r.Some? ==> (r.value.hasPrevPage <==> page > 1)
    ensures r.Some? ==> (r.value.totalPages == 0 <==> total == 0)
    ensures r.Some? ==> (r.value.totalPages - 1) * limit < total <= r.value.totalPages * limit || total == 0
    ensures r.Some? && page <= r.value.totalPages ==> 0 <= Skip(page, limit) < total
  {
    if page < 1 then
      MulMonotonic(page - 1, -1, limit);
      None
    else
      MulMonotonic(0, page - 1, limit);
      var pages := CeilDiv(total, limit);
      PageArithmetic(page, limit, total, pages);
      Some(PageMeta(page, pages, total, page < pages, page > 1, limit))
  }
}
