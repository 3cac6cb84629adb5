/**
 * The dashboard handler: the user's registered records, each with its event,
 * split into upcoming and past events, each list sorted by date, and counts.
 */
module DashboardController {
  import opened Wrappers
  import opened EventModel
  import opened RegistrationModel

  /** An event as the dashboard lists it, with the registration it came from. */
  datatype DashboardEntry = DashboardEntry(event: Event, availableSeats: int, registrationId: Id, registeredAt: int)

  datatype Stats = Stats(totalRegistered: nat, upcomingCount: nat, pastCount: nat, totalCancelled: nat)

  datatype Dashboard = Dashboard(upcoming: seq<DashboardEntry>, past: seq<DashboardEntry>, stats: Stats)

  /** The records of status `status`, in their order (the queries' status filter). */
  function WithStatus(mine: seq<Registration>, status: RegStatus): (r: seq<Registration>)
    ensures |r| <= |mine|
    ensures forall x :: x in r ==> x.status == status
    ensures forall x :: x in mine && x.status == status ==> x in r
    ensures forall x :: x in r ==> x in mine
  {
    if mine == [] then []
    else
      var last := mine[|mine| - 1];
      WithStatus(mine[..|mine| - 1], status) + (if last.status == status then [last] else [])
  }

  /** Every record has exactly one of the three statuses. */
  lemma {:induction false} StatusesPartition(mine: seq<Registration>)
    ensures |WithStatus(mine, Registered)| + |WithStatus(mine, Cancelled)| + |WithStatus(mine, Attended)| == |mine|
  {
    if mine != [] {
      StatusesPartition(mine[..|mine| - 1]);
    }
  }

  function EntryOf(reg: Registration, e: Event): (d: DashboardEntry)
  {
    DashboardEntry(e, AvailableSeats(e), reg.id, reg.registeredAt)
  }

  /** The entries for records whose event exists and is at or after `now`, in record order. */
  function Upcoming(regs: seq<Registration>, events: map<Id, Event>, now: int): (r: seq<DashboardEntry>)
    ensures |r| <= |regs|
    ensures forall x :: x in r ==> x.event.date >= now && x.availableSeats == AvailableSeats(x.event)
  {
    if regs == [] then []
    else
      var init, last := regs[..|regs| - 1], regs[|regs| - 1];
      var r := Upcoming(init, events, now);
      if last.event in events && events[last.event].date >= now
      then r + [EntryOf(last, events[last.event])]
      else r
  }

  /** The entries for records whose event exists and is before `now`, in record order. */
  function Past(regs: seq<Registration>, events: map<Id, Event>, now: int): (r: seq<DashboardEntry>)
    ensures |r| <= |regs|
    ensures forall x :: x in r ==> x.event.date < now && x.availableSeats == AvailableSeats(x.event)
  {
    if regs == [] then []
    else
      var init, last := regs[..|regs| - 1], regs[|regs| - 1];
      var r := Past(init, events, now);
      if last.event in events && events[last.event].date < now
      then r + [EntryOf(last, events[last.event])]
      else r
  }

  /** The entries for all records whose event exists, in record order. */
  function Kept(regs: seq<Registration>, events: map<Id, Event>): (r: seq<DashboardEntry>)
    ensures |r| <= |regs|
  {
    if regs == [] then []
    else
      var last := regs[|regs| - 1];
      Kept(regs[..|regs| - 1], events) + (if last.event in events then [EntryOf(last, events[last.event])] else [])
  }

  /**
   * Exactly the records whose event exists give entries: each such record
   * gives its own, and every entry carries its event, that event's free
   * seats, and the id and registration time of a record for that event;
   * there is one entry per such record.
   */
  lemma {:induction false} KeptMeaning(regs: seq<Registration>, events: map<Id, Event>)
    ensures |Kept(regs, events)| == |set i | 0 <= i < |regs| && regs[i].event in events|
    ensures forall i :: 0 <= i < |regs| && regs[i].event in events ==>
              EntryOf(regs[i], events[regs[i].event]) in Kept(regs, events)
    ensures forall x :: x in Kept(regs, events) ==>
              exists reg :: reg in regs && reg.event in events && x.event == events[reg.event]
                && x.availableSeats == AvailableSeats(x.event)
                && x.registrationId == reg.id && x.registeredAt == reg.registeredAt
  {
    KeptCount(regs, events);
    if regs != [] {
      var init, last := regs[..|regs| - 1], regs[|regs| - 1];
      KeptMeaning(init, events);
      var tail := if last.event in events then [EntryOf(last, events[last.event])] else [];
      assert Kept(regs, events) == Kept(init, events) + tail;
      forall i | 0 <= i < |regs| && regs[i].event in events
        ensures EntryOf(regs[i], events[regs[i].event]) in Kept(regs, events)
      {
        if i < |init| {
          assert regs[i] == init[i];
        }
      }
      forall x | x in Kept(regs, events)
        ensures exists reg :: reg in regs && reg.event in events && x.event == events[reg.event]
                  && x.availableSeats == AvailableSeats(x.event)
                  && x.registrationId == reg.id && x.registeredAt == reg.registeredAt
      {
        if x in Kept(init, events) {
          var reg :| reg in init && reg.event in events && x.event == events[reg.event]
                     && x.availableSeats == AvailableSeats(x.event)
                     && x.registrationId == reg.id && x.registeredAt == reg.registeredAt;
          assert reg in regs;
        } else {
          assert x in tail;
          assert last in regs;
        }
      }
    }
  }

  /** One entry per record whose event exists. */
  lemma {:induction false} KeptCount(regs: seq<Registration>, events: map<Id, Event>)
    ensures |Kept(regs, events)| == |set i | 0 <= i < |regs| && regs[i].event in events|
  {
    var all := set i | 0 <= i < |regs| && regs[i].event in events;
    if regs == [] {
      assert all == {};
    } else {
      var init, last := regs[..|regs| - 1], regs[|regs| - 1];
      KeptCount(init, events);
      var before := set i | 0 <= i < |init| && init[i].event in events;
      var added: set<int> := if last.event in events then {|init|} else {};
      forall i ensures i in all <==> i in before + added {
        if 0 <= i < |init| {
          assert regs[i] == init[i];
        }
      }
      assert all == before + added;
      assert |init| !in before;
      assert Kept(regs, events)
             == Kept(init, events) + (if last.event in events then [EntryOf(last, events[last.event])] else []);
    }
  }

  /** Each kept record lands in exactly one of the two lists. */
  lemma {:induction false} PartitionIsExact(regs: seq<Registration>, events: map<Id, Event>, now: int)
    ensures multiset(Upcoming(regs, events, now)) + multiset(Past(regs, events, now)) == multiset(Kept(regs, events))
    ensures |Upcoming(regs, events, now)| + |Past(regs, events, now)| == |Kept(regs, events)| <= |regs|
  {
    if regs != [] {
      PartitionIsExact(regs[..|regs| - 1], events, now);
    }
  }

  // ------------------------------------------------------------- sorting

  /** The comparators: ascending dates for upcoming events, descending for past ones. */
  predicate InOrder(x: DashboardEntry, y: DashboardEntry, ascending: bool)
  {
    if ascending then x.event.date <= y.event.date else x.event.date >= y.event.date
  }

  predicate SortedBy(s: seq<DashboardEntry>, ascending: bool)
  {
    forall p, q :: 0 <= p < q < |s| ==> InOrder(s[p], s[q], ascending)
  }

  method Swap(a: array<DashboardEntry>, i: int, j: int)
    requires 0 <= i < a.Length && 0 <= j < a.Length
    modifies a
    ensures a[..] == old(a[..])[i := old(a[j])][j := old(a[i])]
    ensures multiset(a[..]) == old(multiset(a[..]))
  {
    a[i], a[j] := a[j], a[i];
  }

  /** `a.sort(...)` with the date comparator: sorted, and a permutation of what it was. */
  method SortByDate(a: array<DashboardEntry>, ascending: bool)
    modifies a
    ensures SortedBy(a[..], ascending)
    ensures multiset(a[..]) == old(multiset(a[..]))
  {
    var i := 0;
    while i < a.Length
      invariant 0 <= i <= a.Length
      invariant forall p, q :: 0 <= p < q < i ==> InOrder(a[p], a[q], ascending)
      invariant multiset(a[..]) == old(multiset(a[..]))
    {
      var j := i;
      while j > 0 && !InOrder(a[j - 1], a[j], ascending)
        invariant 0 <= j <= i
        invariant forall p, q :: 0 <= p < q <= i && p != j && q != j ==> InOrder(a[p], a[q], ascending)
        invariant forall q :: j < q <= i ==> InOrder(a[j], a[q], ascending)
        invariant multiset(a[..]) == old(multiset(a[..]))
      {
        Swap(a, j - 1, j);
        j := j - 1;
      }
      i := i + 1;
    }
  }

  /** The `forEach` that pushes each kept record's entry onto `upcoming` or `past`. */
  method Partition(registrations: seq<Registration>, events: map<Id, Event>, now: int)
    returns (upcoming: seq<DashboardEntry>, past: seq<DashboardEntry>)
    ensures upcoming == Upcoming(registrations, events, now)
    ensures past == Past(registrations, events, now)
  {
    upcoming, past := [], [];
    for i := 0 to |registrations|
      invariant upcoming == Upcoming(registrations[..i], events, now)
      invariant past == Past(registrations[..i], events, now)
    {
      var reg := registrations[i];
      if reg.event in events {
        var ev := events[reg.event];
        var entry := DashboardEntry(ev, AvailableSeats(ev), reg.id, reg.registeredAt);
        if ev.date >= now {
          upcoming := upcoming + [entry];
        } else {
          past := past + [entry];
        }
      }
      assert registrations[..i + 1][..i] == registrations[..i];
    }
    assert registrations[..|registrations|] == registrations;
  }

  /** A JavaScript array holding `s`, sorted in place by date. */
  method SortedArray(s: seq<DashboardEntry>, ascending: bool) returns (r: seq<DashboardEntry>)
    ensures SortedBy(r, ascending)
    ensures multiset(r) == multiset(s)
  {
    var a := new DashboardEntry[|s|](k requires 0 <= k < |s| => s[k]);
    assert a[..] == s;
    SortByDate(a, ascending);
    r := a[..];
  }

  /**
   * `getDashboard` over the user's records `mine` (any status) and the events
   * they refer to, at time `now`.
   */
  method GetDashboard(mine: seq<Registration>, events: map<Id, Event>, now: int) returns (d: Dashboard)
    ensures var active := WithStatus(mine, Registered);
            && multiset(d.upcoming) == multiset(Upcoming(active, events, now))
            && multiset(d.past) == multiset(Past(active, events, now))
            && multiset(d.upcoming) + multiset(d.past) == multiset(Kept(active, events))
            && d.stats == Stats(|active|, |d.upcoming|, |d.past|, |WithStatus(mine, Cancelled)|)
    ensures SortedBy(d.upcoming, true) && SortedBy(d.past, false)
    ensures forall x :: x in d.upcoming ==> x.event.date >= now && x.availableSeats == AvailableSeats(x.event)
    ensures forall x :: x in d.past ==> x.event.date < now && x.availableSeats == AvailableSeats(x.event)
    ensures d.stats.upcomingCount + d.stats.pastCount <= d.stats.totalRegistered
    ensures var active := WithStatus(mine, Registered);
            d.stats.upcomingCount + d.stats.pastCount == |set i | 0 <= i < |active| && active[i].event in events|
  {
    var registrations := WithStatus(mine, Registered);
    var upcoming, past := Partition(registrations, events, now);
    PartitionIsExact(registrations, events, now);
    KeptCount(registrations, events);
    upcoming := SortedArray(upcoming, true);
    past := SortedArray(past, false);
    assert |upcoming| == |multiset(upcoming)| && |past| == |multiset(past)|;
    var totalCancelled := |WithStatus(mine, Cancelled)|;
    d := Dashboard(upcoming, past, Stats(|registrations|, |upcoming|, |past|, totalCancelled));
    assert forall x :: x in d.upcoming ==> x in multiset(Upcoming(registrations, events, now));
    assert forall x :: x in d.past ==> x in multiset(Past(registrations, events, now));
  }
}
