/**
 * Properties of the seat-reservation handlers over several calls: registering
 * twice, registering again after cancelling, runs of arbitrary requests,
 * contention for the last seats, and the ledger of seats against records.
 */
module ReservationProperties {
  import opened Wrappers
  import opened EventModel
  import opened RegistrationModel
  import opened EventController

  /** A second registration of the same user changes nothing, so the seat is taken once. */
  lemma RegisterTwiceTakesOneSeat(
    s: State, user: Id, eventId: Id, now1: int, now2: int, isObjectId: Id -> bool, id1: Id, id2: Id)
    requires RegisterStep(s, user, eventId, now1, isObjectId, id1).0.RegisterOk?
    requires now2 <= s.events[eventId].date
    ensures var (o1, t1) := RegisterStep(s, user, eventId, now1, isObjectId, id1);
            var (o2, t2) := RegisterStep(t1, user, eventId, now2, isObjectId, id2);
            && t2 == t1
            && t2.events[eventId].registeredCount == s.events[eventId].registeredCount + 1
            && o2 == if t1.events[eventId].registeredCount >= t1.events[eventId].capacity
                     then FullyBooked else AlreadyRegistered
  {
    var (o1, t1) := RegisterStep(s, user, eventId, now1, isObjectId, id1);
    assert t1.regs[(user, eventId)].status == Registered;
  }

  /** Cancelling a registered record of an event with seats taken, spelled out. */
  lemma CancelRegisteredResult(t: State, user: Id, eventId: Id, now: int, isObjectId: Id -> bool)
    requires isObjectId(eventId) && (user, eventId) in t.regs && t.regs[(user, eventId)].status == Registered
    requires eventId in t.events && t.events[eventId].registeredCount > 0
    ensures var e := t.events[eventId];
            var e' := e.(registeredCount := e.registeredCount - 1);
            CancelStep(t, user, eventId, now, isObjectId)
            == (CancelOk(Some(AvailableSeats(e'))),
                State(t.events[eventId := e'],
                      t.regs[(user, eventId) := t.regs[(user, eventId)].(status := Cancelled, cancelledAt := Some(now))]))
  {
  }

  /** Cancelling right after registering gives the seat back and marks the record cancelled. */
  lemma CancelAfterRegister(s: State, user: Id, eventId: Id, now1: int, now2: int, isObjectId: Id -> bool, id1: Id)
    requires CountsInRange(s)
    requires RegisterStep(s, user, eventId, now1, isObjectId, id1).0.RegisterOk?
    ensures var t1 := RegisterStep(s, user, eventId, now1, isObjectId, id1).1;
            CancelStep(t1, user, eventId, now2, isObjectId).0 == CancelOk(Some(AvailableSeats(s.events[eventId])))
    ensures var t1 := RegisterStep(s, user, eventId, now1, isObjectId, id1).1;
            CancelStep(t1, user, eventId, now2, isObjectId).1.events == s.events
    ensures var t1 := RegisterStep(s, user, eventId, now1, isObjectId, id1).1;
            && (user, eventId) in t1.regs
            && CancelStep(t1, user, eventId, now2, isObjectId).1.regs
               == t1.regs[(user, eventId) := t1.regs[(user, eventId)].(status := Cancelled, cancelledAt := Some(now2))]
  {
    var e := s.events[eventId];
    var t1 := RegisterStep(s, user, eventId, now1, isObjectId, id1).1;
    RegisterOkResult(s, user, eventId, now1, isObjectId, id1);
    CancelRegisteredResult(t1, user, eventId, now2, isObjectId);
    assert TakeSeat(e).(registeredCount := TakeSeat(e).registeredCount - 1) == e;
    assert t1.events[eventId := e] == s.events;
  }

  /** A successful registration leaves an active record and one more seat taken. */
  lemma RegisterOkResult(s: State, user: Id, eventId: Id, now: int, isObjectId: Id -> bool, freshId: Id)
    requires CountsInRange(s)
    requires RegisterStep(s, user, eventId, now, isObjectId, freshId).0.RegisterOk?
    ensures isObjectId(eventId) && eventId in s.events
    ensures var t := RegisterStep(s, user, eventId, now, isObjectId, freshId).1;
            && t.events == s.events[eventId := TakeSeat(s.events[eventId])]
            && TakeSeat(s.events[eventId]).registeredCount > 0
            && (user, eventId) in t.regs && t.regs[(user, eventId)].status == Registered
  {
    var e := s.events[eventId];
    assert e.registeredCount >= 0;
  }

  /**
   * Register, cancel, register again: the second registration reuses the
   * record the first one created, and the count ends one above where it began.
   */
  lemma RegisterCancelRegister(
    s: State, user: Id, eventId: Id, now1: int, now2: int, now3: int, isObjectId: Id -> bool, id1: Id, id3: Id)
    requires CountsInRange(s)
    requires RegisterStep(s, user, eventId, now1, isObjectId, id1).0.RegisterOk?
    requires now3 <= s.events[eventId].date
    ensures var (o1, t1) := RegisterStep(s, user, eventId, now1, isObjectId, id1);
            var (o2, t2) := CancelStep(t1, user, eventId, now2, isObjectId);
            var (o3, t3) := RegisterStep(t2, user, eventId, now3, isObjectId, id3);
            && o2 == CancelOk(Some(AvailableSeats(s.events[eventId])))
            && o3 == o1
            && t3.regs.Keys == t1.regs.Keys
            && t3.regs[(user, eventId)] == t1.regs[(user, eventId)].(registeredAt := now3)
            && t3.regs[(user, eventId)].status == Registered
            && t3.regs[(user, eventId)].cancelledAt == None
            && t3.events == t1.events
            && t3.events[eventId].registeredCount == s.events[eventId].registeredCount + 1
  {
    var key := (user, eventId);
    var (o1, t1) := RegisterStep(s, user, eventId, now1, isObjectId, id1);
    CancelAfterRegister(s, user, eventId, now1, now2, isObjectId, id1);
    var (o2, t2) := CancelStep(t1, user, eventId, now2, isObjectId);
    assert t2.regs[key].status == Cancelled;
    assert Open(t2, eventId, now3, isObjectId);
    var (o3, t3) := RegisterStep(t2, user, eventId, now3, isObjectId, id3);
    assert t3.regs[key] == t2.regs[key].(status := Registered, registeredAt := now3, cancelledAt := None);
    assert t1.regs[key].status == Registered && t1.regs[key].cancelledAt == None;
    assert t3.events == t1.events;
  }

  // ------------------------------------------------- the ledger of seats

  /** The (user, event) keys of the records registered for `eventId`. */
  function RegisteredFor(regs: map<Key, Registration>, eventId: Id): (ks: set<Key>)
    ensures forall k :: k in ks <==> k in regs && k.1 == eventId && regs[k].status == Registered
  {
    set k | k in regs && k.1 == eventId && regs[k].status == Registered
  }

  /**
   * Every event's count equals the number of records registered for it. The
   * seed data sets counts without records, so this need not hold of a store;
   * the handlers keep it once it does.
   */
  predicate LedgerMatches(s: State)
  {
    forall id :: id in s.events ==> s.events[id].registeredCount == |RegisteredFor(s.regs, id)|
  }

  /** Overwriting one record changes only its own event's set of registered keys. */
  lemma RegisteredForAfterUpdate(regs: map<Key, Registration>, key: Key, rec: Registration, id: Id)
    ensures RegisteredFor(regs[key := rec], id)
         == if key.1 != id then RegisteredFor(regs, id)
            else if rec.status == Registered then RegisteredFor(regs, id) + {key}
            else RegisteredFor(regs, id) - {key}
  {
  }

  lemma RegisterKeepsLedger(s: State, user: Id, eventId: Id, now: int, isObjectId: Id -> bool, freshId: Id)
    requires LedgerMatches(s)
    ensures LedgerMatches(RegisterStep(s, user, eventId, now, isObjectId, freshId).1)
  {
    var (o, t) := RegisterStep(s, user, eventId, now, isObjectId, freshId);
    if o.RegisterOk? {
      var key := (user, eventId);
      var rec := ActiveRecord(s, user, eventId, now, freshId);
      assert t.regs == s.regs[key := rec] && rec.status == Registered;
      assert key !in RegisteredFor(s.regs, eventId);
      forall id | id in t.events
        ensures t.events[id].registeredCount == |RegisteredFor(t.regs, id)|
      {
        RegisteredForAfterUpdate(s.regs, key, rec, id);
      }
    }
  }

  lemma CancelKeepsLedger(s: State, user: Id, eventId: Id, now: int, isObjectId: Id -> bool)
    requires LedgerMatches(s)
    ensures LedgerMatches(CancelStep(s, user, eventId, now, isObjectId).1)
  {
    var (o, t) := CancelStep(s, user, eventId, now, isObjectId);
    if o.CancelOk? {
      var key := (user, eventId);
      var rec := s.regs[key].(status := Cancelled, cancelledAt := Some(now));
      assert t.regs == s.regs[key := rec];
      assert key in RegisteredFor(s.regs, eventId);
      forall id | id in t.events
        ensures t.events[id].registeredCount == |RegisteredFor(t.regs, id)|
      {
        RegisteredForAfterUpdate(s.regs, key, rec, id);
      }
    }
  }

  // ------------------------------------------------ runs of many requests

  datatype Request =
    | RegisterRequest(user: Id, eventId: Id, now: int, freshId: Id)
    | CancelRequest(user: Id, eventId: Id, now: int)

  function Apply(s: State, r: Request, isObjectId: Id -> bool): State
  {
    match r
    case RegisterRequest(user, eventId, now, freshId) => RegisterStep(s, user, eventId, now, isObjectId, freshId).1
    case CancelRequest(user, eventId, now) => CancelStep(s, user, eventId, now, isObjectId).1
  }

  /** The store after serving the requests one after another. */
  function Run(s: State, rs: seq<Request>, isObjectId: Id -> bool): State
    decreases |rs|
  {
    if rs == [] then s else Run(Apply(s, rs[0], isObjectId), rs[1..], isObjectId)
  }

  /** Any sequence of requests keeps every count within [0, capacity] and deletes no record. */
  lemma {:induction false} RunKeepsCountsInRange(s: State, rs: seq<Request>, isObjectId: Id -> bool)
    requires WellFormed(s) && CountsInRange(s)
    ensures WellFormed(Run(s, rs, isObjectId)) && CountsInRange(Run(s, rs, isObjectId))
    ensures s.regs.Keys <= Run(s, rs, isObjectId).regs.Keys
    ensures Run(s, rs, isObjectId).events.Keys == s.events.Keys
    decreases |rs|
  {
    if rs != [] {
      var t := Apply(s, rs[0], isObjectId);
      match rs[0] {
        case RegisterRequest(user, eventId, now, freshId) =>
          RegisterKeepsWellFormed(s, user, eventId, now, isObjectId, freshId);
          RegisterKeepsCountsInRange(s, user, eventId, now, isObjectId, freshId);
          RegisterMovesOneCount(s, user, eventId, now, isObjectId, freshId);
        case CancelRequest(user, eventId, now) =>
          CancelKeepsWellFormed(s, user, eventId, now, isObjectId);
          CancelKeepsCountsInRange(s, user, eventId, now, isObjectId);
          CancelMovesOneCount(s, user, eventId, now, isObjectId);
      }
      RunKeepsCountsInRange(t, rs[1..], isObjectId);
    }
  }

  /** Any sequence of requests keeps the ledger matching the records once it does. */
  lemma {:induction false} RunKeepsLedger(s: State, rs: seq<Request>, isObjectId: Id -> bool)
    requires LedgerMatches(s)
    ensures LedgerMatches(Run(s, rs, isObjectId))
    decreases |rs|
  {
    if rs != [] {
      match rs[0] {
        case RegisterRequest(user, eventId, now, freshId) =>
          RegisterKeepsLedger(s, user, eventId, now, isObjectId, freshId);
        case CancelRequest(user, eventId, now) =>
          CancelKeepsLedger(s, user, eventId, now, isObjectId);
      }
      RunKeepsLedger(Apply(s, rs[0], isObjectId), rs[1..], isObjectId);
    }
  }

  // ------------------------------------------------ contention for seats

  /** Users registering for one event one after another; `ids` are the ids new records get. */
  function RegisterAll(s: State, users: seq<Id>, ids: seq<Id>, eventId: Id, now: int, isObjectId: Id -> bool)
    : (r: (seq<RegisterOutcome>, State))
    requires |ids| == |users|
    ensures |r.0| == |users|
    decreases |users|
  {
    if users == [] then ([], s)
    else
      var (o, t) := RegisterStep(s, users[0], eventId, now, isObjectId, ids[0]);
      var (os, u) := RegisterAll(t, users[1..], ids[1..], eventId, now, isObjectId);
      ([o] + os, u)
  }

  /**
   * When distinct users without records register in turn for an open event,
   * exactly the first `capacity - registeredCount` of them get a seat and every
   * later one is told the event is full.
   */
  lemma {:induction false} SeatsGoToFirstComers(
    s: State, users: seq<Id>, ids: seq<Id>, eventId: Id, now: int, isObjectId: Id -> bool)
    requires |ids| == |users|
    requires isObjectId(eventId) && eventId in s.events && s.events[eventId].date >= now
    requires 0 <= s.events[eventId].registeredCount <= s.events[eventId].capacity
    requires forall i, j :: 0 <= i < j < |users| ==> users[i] != users[j]
    requires forall i :: 0 <= i < |users| ==> (users[i], eventId) !in s.regs
    ensures var os := RegisterAll(s, users, ids, eventId, now, isObjectId).0;
            forall i :: 0 <= i < |os|
              ==> (os[i].RegisterOk? <==> i < s.events[eventId].capacity - s.events[eventId].registeredCount)
    ensures var os := RegisterAll(s, users, ids, eventId, now, isObjectId).0;
            forall i :: 0 <= i < |os| ==> os[i].RegisterOk? || os[i] == FullyBooked
    ensures var t := RegisterAll(s, users, ids, eventId, now, isObjectId).1;
            var free := s.events[eventId].capacity - s.events[eventId].registeredCount;
            && eventId in t.events
            && t.events[eventId].registeredCount == s.events[eventId].registeredCount + Min(|users|, free)
    decreases |users|
  {
    if users != [] {
      var free := s.events[eventId].capacity - s.events[eventId].registeredCount;
      var st := RegisterStep(s, users[0], eventId, now, isObjectId, ids[0]);
      var o, t := st.0, st.1;
      FreshUserStep(s, users[0], eventId, now, isObjectId, ids[0]);
      var rest := users[1..];
      forall i | 0 <= i < |rest| ensures (rest[i], eventId) !in t.regs {
        assert rest[i] == users[i + 1] && users[i + 1] != users[0];
      }
      SeatsGoToFirstComers(t, rest, ids[1..], eventId, now, isObjectId);
      var rr := RegisterAll(t, rest, ids[1..], eventId, now, isObjectId);
      assert RegisterAll(s, users, ids, eventId, now, isObjectId) == ([o] + rr.0, rr.1);
      var os := [o] + rr.0;
      forall i | 0 <= i < |os| ensures (os[i].RegisterOk? <==> i < free) && (os[i].RegisterOk? || os[i] == FullyBooked) {
        if i > 0 { assert os[i] == rr.0[i - 1]; }
      }
    }
  }

  /** One user without a record registers for an open event: a seat if one is free, else "fully booked". */
  lemma FreshUserStep(s: State, user: Id, eventId: Id, now: int, isObjectId: Id -> bool, freshId: Id)
    requires isObjectId(eventId) && eventId in s.events && s.events[eventId].date >= now
    requires 0 <= s.events[eventId].registeredCount <= s.events[eventId].capacity
    requires (user, eventId) !in s.regs
    ensures var o := RegisterStep(s, user, eventId, now, isObjectId, freshId).0;
            && (o.RegisterOk? <==> s.events[eventId].registeredCount < s.events[eventId].capacity)
            && (o.RegisterOk? || o == FullyBooked)
    ensures var o := RegisterStep(s, user, eventId, now, isObjectId, freshId).0;
            var t := RegisterStep(s, user, eventId, now, isObjectId, freshId).1;
            var e := s.events[eventId];
            && eventId in t.events
            && t.events[eventId].date == e.date && t.events[eventId].capacity == e.capacity
            && t.events[eventId].registeredCount == e.registeredCount + (if o.RegisterOk? then 1 else 0)
            && t.regs.Keys <= s.regs.Keys + {(user, eventId)}
  {
  }

  // ------------------------------------------------------------ a scenario

  const ScenarioEvent := Event("e1", "Meetup", "Guild", "Town Hall", 100, "An evening meetup", 2, 0,
                               Technology, [], "", Upcoming)

  /** `ObjectId.isValid` as the scenario has it: every id the scenario uses is well formed. */
  predicate EveryIdIsObjectId(id: Id)
  {
    true
  }

  /** The event with `n` seats taken. */
  function Taken(n: int): map<Id, Event>
  {
    map["e1" := ScenarioEvent.(registeredCount := n)]
  }

  const RecordA := Registration("r1", "A", "e1", Registered, 50, None)
  const RecordB := Registration("r2", "B", "e1", Registered, 50, None)
  const RecordC := Registration("r5", "C", "e1", Registered, 70, None)
  const CancelledA := RecordA.(status := Cancelled, cancelledAt := Some(60))

  const Start := State(Taken(0), map[])
  const AfterA := State(Taken(1), map[("A", "e1") := RecordA])
  const AfterB := State(Taken(2), map[("A", "e1") := RecordA, ("B", "e1") := RecordB])
  const AfterCancelA := State(Taken(1), map[("A", "e1") := CancelledA, ("B", "e1") := RecordB])
  const AfterC := State(Taken(2), map[("A", "e1") := CancelledA, ("B", "e1") := RecordB, ("C", "e1") := RecordC])

  /** A takes the first seat of two. */
  lemma ScenarioA()
    ensures RegisterStep(Start, "A", "e1", 50, EveryIdIsObjectId, "r1") == (RegisterOk(1), AfterA)
  {
    assert Start.events["e1"] == ScenarioEvent;
    assert TakeSeat(ScenarioEvent) == ScenarioEvent.(registeredCount := 1);
    assert Taken(0)["e1" := ScenarioEvent.(registeredCount := 1)] == Taken(1);
  }

  /** B takes the last seat. */
  lemma ScenarioB()
    ensures RegisterStep(AfterA, "B", "e1", 50, EveryIdIsObjectId, "r2") == (RegisterOk(0), AfterB)
  {
    assert AfterA.events["e1"] == ScenarioEvent.(registeredCount := 1);
    assert TakeSeat(ScenarioEvent.(registeredCount := 1)) == ScenarioEvent.(registeredCount := 2);
    assert Taken(1)["e1" := ScenarioEvent.(registeredCount := 2)] == Taken(2);
    assert ("B", "e1") !in AfterA.regs;
  }

  /** Anyone asking while both seats are taken is turned away, and nothing changes. */
  lemma ScenarioFull(user: Id, freshId: Id)
    ensures RegisterStep(AfterB, user, "e1", 50, EveryIdIsObjectId, freshId) == (FullyBooked, AfterB)
  {
    assert AfterB.events["e1"] == ScenarioEvent.(registeredCount := 2);
  }

  /** A cancels: the record is kept as cancelled and one seat is free again. */
  lemma ScenarioCancelA()
    ensures CancelStep(AfterB, "A", "e1", 60, EveryIdIsObjectId) == (CancelOk(Some(1)), AfterCancelA)
  {
    assert AfterB.events["e1"] == ScenarioEvent.(registeredCount := 2);
    assert Taken(2)["e1" := ScenarioEvent.(registeredCount := 1)] == Taken(1);
    assert AfterB.regs[("A", "e1")] == RecordA;
    assert AfterB.regs[("A", "e1") := CancelledA] == AfterCancelA.regs;
  }

  /** C takes the freed seat with a record of its own. */
  lemma ScenarioC()
    ensures RegisterStep(AfterCancelA, "C", "e1", 70, EveryIdIsObjectId, "r5") == (RegisterOk(0), AfterC)
  {
    assert AfterCancelA.events["e1"] == ScenarioEvent.(registeredCount := 1);
    assert TakeSeat(ScenarioEvent.(registeredCount := 1)) == ScenarioEvent.(registeredCount := 2);
    assert Taken(1)["e1" := ScenarioEvent.(registeredCount := 2)] == Taken(2);
    assert ("C", "e1") !in AfterCancelA.regs;
  }

  /**
   * Capacity 2, nobody registered: A and B get the two seats, C is turned
   * away, B registering again while the event is full is told it is full
   * rather than that B is already registered, A cancels, and C gets the freed
   * seat.
   */
  lemma TwoSeatScenario()
    ensures var (a, s1) := RegisterStep(Start, "A", "e1", 50, EveryIdIsObjectId, "r1");
            var (b, s2) := RegisterStep(s1, "B", "e1", 50, EveryIdIsObjectId, "r2");
            var (c, s3) := RegisterStep(s2, "C", "e1", 50, EveryIdIsObjectId, "r3");
            var (b2, s4) := RegisterStep(s3, "B", "e1", 50, EveryIdIsObjectId, "r4");
            var (x, s5) := CancelStep(s4, "A", "e1", 60, EveryIdIsObjectId);
            var (c2, s6) := RegisterStep(s5, "C", "e1", 70, EveryIdIsObjectId, "r5");
            && a == RegisterOk(1) && b == RegisterOk(0) && c == FullyBooked && b2 == FullyBooked
            && x == CancelOk(Some(1)) && c2 == RegisterOk(0)
            && s6.regs.Keys == {("A", "e1"), ("B", "e1"), ("C", "e1")}
            && s6.regs[("A", "e1")].status == Cancelled && s6.regs[("A", "e1")].cancelledAt == Some(60)
            && s6.events["e1"].registeredCount == s6.events["e1"].capacity
  {
    ScenarioA();
    ScenarioB();
    ScenarioFull("C", "r3");
    ScenarioFull("B", "r4");
    ScenarioCancelA();
    ScenarioC();
  }
}
