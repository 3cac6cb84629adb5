/**
 * The events page: the filter state, read from and written back to the URL's
 * query parameters, the query parameters of the listing request, the merge of
 * a filter patch, and the local list updates after a registration or a
 * cancellation succeeds.
 */
module EventsPage {
  import opened Wrappers
  import opened JsStrings
  import opened EventModel
  import opened EventController

  /** The page's filter state. */
  datatype Filters = Filters(
    search: string,
    category: string,
    location: string,
    dateFrom: string,
    dateTo: string,
    sortBy: string,
    sortOrder: string,
    page: int)

  const DefaultFilters := Filters("", "All", "", "", "", "date", "asc", 1)

  /**
   * The page's own URL query parameters, one optional slot per parameter name
   * (`search`, `category`, `location`, `dateFrom`, `dateTo`, `sortBy`,
   * `sortOrder`, `page`), after percent-decoding; other parameters are ignored.
   */
  datatype Query = Query(
    search: Option<string>,
    category: Option<string>,
    location: Option<string>,
    dateFrom: Option<string>,
    dateTo: Option<string>,
    sortBy: Option<string>,
    sortOrder: Option<string>,
    page: Option<string>)

  const EmptyQuery := Query(None, None, None, None, None, None, None, None)

  /** `searchParams.get(key) || fallback`: an absent or empty parameter gives the fallback. */
  function GetOr(param: Option<string>, fallback: string): (v: string)
    ensures param.Some? && param.value != "" ==> v == param.value
    ensures param == None || param == Some("") ==> v == fallback
    ensures v != "" || fallback == ""
  {
    if param.Some? && param.value != "" then param.value else fallback
  }

  /** `parseInt(searchParams.get('page')) || 1`: `get` gives null, which reads as "null"; NaN and 0 give 1. */
  function PageParam(param: Option<string>): (page: int)
    ensures page != 0
    ensures param == None ==> page == 1
  {
    var n := ParseInt(if param.Some? then param.value else "null");
    if n.None? || n.value == 0 then 1 else n.value
  }

  /** The initial filter state read from the URL. */
  function ParseFilters(q: Query): (f: Filters)
    ensures f.category != "" && f.sortBy != "" && f.sortOrder != "" && f.page != 0
    ensures q == EmptyQuery ==> f == DefaultFilters
  {
    Filters(
      GetOr(q.search, ""),
      GetOr(q.category, "All"),
      GetOr(q.location, ""),
      GetOr(q.dateFrom, ""),
      GetOr(q.dateTo, ""),
      GetOr(q.sortBy, "date"),
      GetOr(q.sortOrder, "asc"),
      PageParam(q.page))
  }

  /**
   * The URL the filters are written to: the text filters appear when
   * non-empty (the category also not "All"), the sort field and order when
   * they differ from their defaults (even when empty), the page above 1.
   */
  function UrlParams(f: Filters): Query
  {
    Query(
      if f.search != "" then Some(f.search) else None,
      if f.category != "" && f.category != "All" then Some(f.category) else None,
      if f.location != "" then Some(f.location) else None,
      if f.dateFrom != "" then Some(f.dateFrom) else None,
      if f.dateTo != "" then Some(f.dateTo) else None,
      if f.sortBy != "date" then Some(f.sortBy) else None,
      if f.sortOrder != "asc" then Some(f.sortOrder) else None,
      if f.page > 1 then Some(IntToString(f.page)) else None)
  }

  /**
   * The effect that writes the filters back to the URL, setting one
   * parameter at a time on a fresh parameter list.
   */
  method ToSearchParams(f: Filters) returns (params: Query)
    ensures params == UrlParams(f)
  {
    params := EmptyQuery;
    if f.search != "" {
      params := params.(search := Some(f.search));
    }
    if f.category != "" && f.category != "All" {
      params := params.(category := Some(f.category));
    }
    if f.location != "" {
      params := params.(location := Some(f.location));
    }
    if f.dateFrom != "" {
      params := params.(dateFrom := Some(f.dateFrom));
    }
    if f.dateTo != "" {
      params := params.(dateTo := Some(f.dateTo));
    }
    if f.sortBy != "date" {
      params := params.(sortBy := Some(f.sortBy));
    }
    if f.sortOrder != "asc" {
      params := params.(sortOrder := Some(f.sortOrder));
    }
    if f.page > 1 {
      params := params.(page := Some(IntToString(f.page)));
    }
  }

  /** The filters that survive a trip through the URL unchanged. */
  predicate UrlRepresentable(f: Filters)
  {
    f.page >= 1 && f.category != "" && f.sortBy != "" && f.sortOrder != ""
  }

  /** The default filters leave the URL empty, and no other representable filters do. */
  lemma UrlEmptyIffDefault(f: Filters)
    requires UrlRepresentable(f)
    ensures UrlParams(f) == EmptyQuery <==> f == DefaultFilters
  {
  }

  /** Reading back the URL written for representable filters restores them. */
  lemma UrlRoundTrip(f: Filters)
    requires UrlRepresentable(f)
    ensures ParseFilters(UrlParams(f)) == f
  {
    if f.page > 1 {
      ParseIntOfIntToString(f.page);
    }
  }

  /** Filters outside the representable ones do not survive: the URL cannot hold an empty category or a page below 1. */
  lemma UrlLosesUnrepresentable(f: Filters)
    requires !UrlRepresentable(f)
    ensures ParseFilters(UrlParams(f)) != f
  {
  }

  // ------------------------------------------------------- the fetch request

  /** The query parameters of the listing request. */
  datatype Param = Search | Category | Location | DateFrom | DateTo | SortBy | SortOrder | Page | Limit

  /** The first value given for `key` in a query list, as `URLSearchParams.get` reads it. */
  function Lookup(q: seq<(Param, string)>, key: Param): Option<string>
  {
    if q == [] then None else if q[0].0 == key then Some(q[0].1) else Lookup(q[1..], key)
  }

  /** A key's lookup in a concatenation finds the first part's entry, if any, and otherwise the second's. */
  lemma {:induction false} LookupAppend(a: seq<(Param, string)>, b: seq<(Param, string)>, key: Param)
    ensures Lookup(a + b, key) == if Lookup(a, key).Some? then Lookup(a, key) else Lookup(b, key)
  {
    if a == [] {
      assert a + b == b;
    } else {
      assert (a + b)[0] == a[0];
      assert (a + b)[1..] == a[1..] + b;
      LookupAppend(a[1..], b, key);
    }
  }

  const PageSize := 12

  /** The value sent for a parameter of the listing request, if it is sent at all. */
  function Sent(f: Filters, key: Param): Option<string>
  {
    match key
    case Search => if f.search != "" then Some(f.search) else None
    case Category => if f.category != "" && f.category != "All" then Some(f.category) else None
    case Location => if f.location != "" then Some(f.location) else None
    case DateFrom => if f.dateFrom != "" then Some(f.dateFrom) else None
    case DateTo => if f.dateTo != "" then Some(f.dateTo) else None
    case SortBy => if f.sortBy != "" then Some(f.sortBy) else None
    case SortOrder => if f.sortOrder != "" then Some(f.sortOrder) else None
    case Page => Some(IntToString(f.page))
    case Limit => Some(IntToString(PageSize))
  }

  /** The entry a parameter contributes to the request: one pair, or nothing. */
  function Entry(f: Filters, key: Param): seq<(Param, string)>
  {
    if Sent(f, key).Some? then [(key, Sent(f, key).value)] else []
  }

  /** The listing request's query list, in the order its parameters are appended. */
  function FetchQuery(f: Filters): seq<(Param, string)>
  {
    Entry(f, Search) + Entry(f, Category) + Entry(f, Location) + Entry(f, DateFrom) + Entry(f, DateTo)
      + Entry(f, SortBy) + Entry(f, SortOrder) + Entry(f, Page) + Entry(f, Limit)
  }

  /** The effect that builds the listing request, appending one parameter at a time. */
  method FetchParams(f: Filters) returns (q: seq<(Param, string)>)
    ensures q == FetchQuery(f)
  {
    q := [];
    if f.search != "" {
      q := q + [(Search, f.search)];
    }
    assert q == Entry(f, Search);
    if f.category != "" && f.category != "All" {
      q := q + [(Category, f.category)];
    }
    assert q == Entry(f, Search) + Entry(f, Category);
    if f.location != "" {
      q := q + [(Location, f.location)];
    }
    assert q == Entry(f, Search) + Entry(f, Category) + Entry(f, Location);
    if f.dateFrom != "" {
      q := q + [(DateFrom, f.dateFrom)];
    }
    assert q == Entry(f, Search) + Entry(f, Category) + Entry(f, Location) + Entry(f, DateFrom);
    if f.dateTo != "" {
      q := q + [(DateTo, f.dateTo)];
    }
    assert q == Entry(f, Search) + Entry(f, Category) + Entry(f, Location) + Entry(f, DateFrom) + Entry(f, DateTo);
    if f.sortBy != "" {
      q := q + [(SortBy, f.sortBy)];
    }
    assert q == Entry(f, Search) + Entry(f, Category) + Entry(f, Location) + Entry(f, DateFrom) + Entry(f, DateTo) + Entry(f, SortBy);
    if f.sortOrder != "" {
      q := q + [(SortOrder, f.sortOrder)];
    }
    assert q == Entry(f, Search) + Entry(f, Category) + Entry(f, Location) + Entry(f, DateFrom) + Entry(f, DateTo) + Entry(f, SortBy) + Entry(f, SortOrder);
    q := q + [(Page, IntToString(f.page))];
    q := q + [(Limit, IntToString(PageSize))];
  }

  /** A parameter's own entry holds its sent value, and no other parameter's. */
  lemma LookupEntry(f: Filters, k: Param, key: Param)
    ensures Lookup(Entry(f, k), key) == if k == key then Sent(f, k) else None
  {
  }

  /** Reading any parameter of the request gives the value sent for it, or nothing. */
  lemma FetchLookup(f: Filters, key: Param)
    ensures Lookup(FetchQuery(f), key) == Sent(f, key)
  {
    var prefix := Entry(f, Search);
    LookupEntry(f, Search, key);
    LookupEntry(f, Category, key);
    LookupAppend(prefix, Entry(f, Category), key);
    prefix := prefix + Entry(f, Category);
    LookupEntry(f, Location, key);
    LookupAppend(prefix, Entry(f, Location), key);
    prefix := prefix + Entry(f, Location);
    LookupEntry(f, DateFrom, key);
    LookupAppend(prefix, Entry(f, DateFrom), key);
    prefix := prefix + Entry(f, DateFrom);
    LookupEntry(f, DateTo, key);
    LookupAppend(prefix, Entry(f, DateTo), key);
    prefix := prefix + Entry(f, DateTo);
    LookupEntry(f, SortBy, key);
    LookupAppend(prefix, Entry(f, SortBy), key);
    prefix := prefix + Entry(f, SortBy);
    LookupEntry(f, SortOrder, key);
    LookupAppend(prefix, Entry(f, SortOrder), key);
    prefix := prefix + Entry(f, SortOrder);
    LookupEntry(f, Page, key);
    LookupAppend(prefix, Entry(f, Page), key);
    prefix := prefix + Entry(f, Page);
    LookupEntry(f, Limit, key);
    LookupAppend(prefix, Entry(f, Limit), key);
    prefix := prefix + Entry(f, Limit);
  }

  /**
   * For filters read from a URL the request always carries the sort, the
   * page and a limit of 12, and carries the category exactly when it is not
   * "All".
   */
  lemma FetchAlwaysSortsAndPages(f: Filters)
    requires f.category != "" && f.sortBy != "" && f.sortOrder != ""
    ensures Lookup(FetchQuery(f), SortBy) == Some(f.sortBy)
    ensures Lookup(FetchQuery(f), SortOrder) == Some(f.sortOrder)
    ensures Lookup(FetchQuery(f), Page) == Some(IntToString(f.page))
    ensures Lookup(FetchQuery(f), Limit) == Some("12")
    ensures Lookup(FetchQuery(f), Category) == None <==> f.category == "All"
  {
    FetchLookup(f, SortBy);
    FetchLookup(f, SortOrder);
    FetchLookup(f, Page);
    FetchLookup(f, Limit);
    FetchLookup(f, Category);
    assert IntToString(12) == "12" by {
      assert Decimal(12) == Decimal(1) + [DigitChar(2)];
    }
  }

  // ------------------------------------------------------ merging a patch

  /** A filter's value: one of the text filters, or the page number. */
  datatype Value = Text(text: string) | Number(number: int)

  /** The value each filter holds, under the name of its query parameter; filters have no limit. */
  function FilterValue(f: Filters, key: Param): Option<Value>
  {
    match key
    case Search => Some(Text(f.search))
    case Category => Some(Text(f.category))
    case Location => Some(Text(f.location))
    case DateFrom => Some(Text(f.dateFrom))
    case DateTo => Some(Text(f.dateTo))
    case SortBy => Some(Text(f.sortBy))
    case SortOrder => Some(Text(f.sortOrder))
    case Page => Some(Number(f.page))
    case Limit => None
  }

  /** Filters that agree on every value are the same filters. */
  lemma FilterValueDeterminesFilters(a: Filters, b: Filters)
    requires forall key :: FilterValue(a, key) == FilterValue(b, key)
    ensures a == b
  {
    assert FilterValue(a, Search) == FilterValue(b, Search);
    assert FilterValue(a, Category) == FilterValue(b, Category);
    assert FilterValue(a, Location) == FilterValue(b, Location);
    assert FilterValue(a, DateFrom) == FilterValue(b, DateFrom);
    assert FilterValue(a, DateTo) == FilterValue(b, DateTo);
    assert FilterValue(a, SortBy) == FilterValue(b, SortBy);
    assert FilterValue(a, SortOrder) == FilterValue(b, SortOrder);
    assert FilterValue(a, Page) == FilterValue(b, Page);
  }

  /** The object passed to `handleFilterChange`: the keys it carries, with their new values. */
  datatype FilterPatch = FilterPatch(
    search: Option<string>,
    category: Option<string>,
    location: Option<string>,
    dateFrom: Option<string>,
    dateTo: Option<string>,
    sortBy: Option<string>,
    sortOrder: Option<string>,
    page: Option<int>)

  const EmptyPatch := FilterPatch(None, None, None, None, None, None, None, None)

  /** The value a patch carries for a filter, if it carries that key. */
  function PatchValue(p: FilterPatch, key: Param): Option<Value>
  {
    match key
    case Search => if p.search.Some? then Some(Text(p.search.value)) else None
    case Category => if p.category.Some? then Some(Text(p.category.value)) else None
    case Location => if p.location.Some? then Some(Text(p.location.value)) else None
    case DateFrom => if p.dateFrom.Some? then Some(Text(p.dateFrom.value)) else None
    case DateTo => if p.dateTo.Some? then Some(Text(p.dateTo.value)) else None
    case SortBy => if p.sortBy.Some? then Some(Text(p.sortBy.value)) else None
    case SortOrder => if p.sortOrder.Some? then Some(Text(p.sortOrder.value)) else None
    case Page => if p.page.Some? then Some(Number(p.page.value)) else None
    case Limit => None
  }

  /**
   * `handleFilterChange`: `{ ...prev, ...newFilters }`. Every key the patch
   * carries takes the patch's value; every other filter keeps its value.
   */
  function Merge(f: Filters, p: FilterPatch): (r: Filters)
    ensures forall key :: FilterValue(r, key) == if PatchValue(p, key).Some? then PatchValue(p, key) else FilterValue(f, key)
  {
    Filters(
      Defaulted(p.search, f.search),
      Defaulted(p.category, f.category),
      Defaulted(p.location, f.location),
      Defaulted(p.dateFrom, f.dateFrom),
      Defaulted(p.dateTo, f.dateTo),
      Defaulted(p.sortBy, f.sortBy),
      Defaulted(p.sortOrder, f.sortOrder),
      Defaulted(p.page, f.page))
  }

  /** A key spread twice keeps the later value. */
  function Later<T>(earlier: Option<T>, later: Option<T>): Option<T>
  {
    if later.Some? then later else earlier
  }

  /** Two patches spread one after the other; the later one wins on a shared key. */
  function Combine(p: FilterPatch, q: FilterPatch): (r: FilterPatch)
    ensures forall key :: PatchValue(r, key) == if PatchValue(q, key).Some? then PatchValue(q, key) else PatchValue(p, key)
  {
    FilterPatch(
      Later(p.search, q.search),
      Later(p.category, q.category),
      Later(p.location, q.location),
      Later(p.dateFrom, q.dateFrom),
      Later(p.dateTo, q.dateTo),
      Later(p.sortBy, q.sortBy),
      Later(p.sortOrder, q.sortOrder),
      Later(p.page, q.page))
  }

  /** A patch with no keys changes nothing. */
  lemma MergeEmpty(f: Filters)
    ensures Merge(f, EmptyPatch) == f
  {
    FilterValueDeterminesFilters(Merge(f, EmptyPatch), f);
  }

  /** Applying the same patch twice is applying it once. */
  lemma MergeIdempotent(f: Filters, p: FilterPatch)
    ensures Merge(Merge(f, p), p) == Merge(f, p)
  {
    FilterValueDeterminesFilters(Merge(Merge(f, p), p), Merge(f, p));
  }

  /** Two successive filter changes amount to one change by the combined patch. */
  lemma MergeCompose(f: Filters, p: FilterPatch, q: FilterPatch)
    ensures Merge(Merge(f, p), q) == Merge(f, Combine(p, q))
  {
    FilterValueDeterminesFilters(Merge(Merge(f, p), q), Merge(f, Combine(p, q)));
  }

  /** `handlePageChange(page)` spreads a patch that carries only the page. */
  function PagePatch(page: int): FilterPatch
  {
    EmptyPatch.(page := Some(page))
  }

  /** A page change moves to the page and leaves every other filter as it was, and keeps the URL faithful. */
  lemma PageChangeTouchesOnlyPage(f: Filters, page: int, key: Param)
    ensures FilterValue(Merge(f, PagePatch(page)), key) == if key == Page then Some(Number(page)) else FilterValue(f, key)
    ensures UrlRepresentable(f) && page >= 1 ==> UrlRepresentable(Merge(f, PagePatch(page)))
  {
  }

  // ------------------------------------ the local updates after an action

  /** An event as the page holds it; `availableSeats` is `None` where the response carried null. */
  datatype Card = Card(event: Event, availableSeats: Option<int>)

  /** The card of an event as the listing returns it. */
  function CardOf(e: Event): Card
  {
    Card(e, Some(AvailableSeats(e)))
  }

  /** Each card shows its event exactly as the server holds it. */
  predicate Synced(cards: seq<Card>, events: map<Id, Event>)
  {
    forall i :: 0 <= i < |cards| ==> cards[i].event.id in events && cards[i] == CardOf(events[cards[i].event.id])
  }

  /**
   * The `setEvents` updater after a register or cancel response: the card of
   * `eventId` takes the response's `availableSeats` and the count
   * `capacity - availableSeats` (null counting as 0); every other card, the
   * order and the length stay as they were.
   */
  function UpdateCards(cards: seq<Card>, eventId: Id, seats: Option<int>): (r: seq<Card>)
    ensures |r| == |cards|
    ensures forall i :: 0 <= i < |r| ==> r[i].event.id == cards[i].event.id
    ensures forall i :: 0 <= i < |r| && cards[i].event.id != eventId ==> r[i] == cards[i]
    ensures forall i :: 0 <= i < |r| && cards[i].event.id == eventId ==>
              r[i].availableSeats == seats
              && r[i].event.registeredCount == r[i].event.capacity - Defaulted(seats, 0)
              && r[i].event.(registeredCount := cards[i].event.registeredCount) == cards[i].event
  {
    seq(|cards|, i requires 0 <= i < |cards| =>
      if cards[i].event.id == eventId then
        var e := cards[i].event;
        Card(e.(registeredCount := e.capacity - Defaulted(seats, 0)), seats)
      else cards[i])
  }

  /** After a successful registration, the locally updated cards show the server's new state. */
  lemma RegisterUpdateMirrorsServer(s: State, user: Id, eventId: Id, now: int, isObjectId: Id -> bool, freshId: Id,
                                    cards: seq<Card>)
    requires WellFormed(s) && Synced(cards, s.events)
    requires RegisterStep(s, user, eventId, now, isObjectId, freshId).0.RegisterOk?
    ensures Synced(UpdateCards(cards, eventId, Some(RegisterStep(s, user, eventId, now, isObjectId, freshId).0.availableSeats)),
                   RegisterStep(s, user, eventId, now, isObjectId, freshId).1.events)
  {
    var (o, t) := RegisterStep(s, user, eventId, now, isObjectId, freshId);
    var r := UpdateCards(cards, eventId, Some(o.availableSeats));
    forall i | 0 <= i < |r|
      ensures r[i].event.id in t.events && r[i] == CardOf(t.events[r[i].event.id])
    {
      if cards[i].event.id == eventId {
        assert cards[i].event == s.events[eventId];
        assert r[i].event == TakeSeat(s.events[eventId]);
      }
    }
  }

  /** After a successful cancellation, the locally updated cards show the server's new state. */
  lemma CancelUpdateMirrorsServer(s: State, user: Id, eventId: Id, now: int, isObjectId: Id -> bool, cards: seq<Card>)
    requires WellFormed(s) && Synced(cards, s.events)
    requires CancelStep(s, user, eventId, now, isObjectId).0.CancelOk?
    ensures Synced(UpdateCards(cards, eventId, CancelStep(s, user, eventId, now, isObjectId).0.availableSeats),
                   CancelStep(s, user, eventId, now, isObjectId).1.events)
  {
    var (o, t) := CancelStep(s, user, eventId, now, isObjectId);
    var r := UpdateCards(cards, eventId, o.availableSeats);
    forall i | 0 <= i < |r|
      ensures r[i].event.id in t.events && r[i] == CardOf(t.events[r[i].event.id])
    {
      if cards[i].event.id == eventId {
        assert cards[i].event == s.events[eventId];
        assert r[i].event == t.events[eventId];
      }
    }
  }

  /**
   * A card left over from an event the server no longer holds: the
   * cancellation still succeeds with null seats, and the card then shows no
   * seat count and a count equal to its capacity, while every other card
   * stays as it was.
   */
  lemma CancelOfGoneEventClearsSeats(s: State, user: Id, eventId: Id, now: int, isObjectId: Id -> bool, cards: seq<Card>)
    requires CancelStep(s, user, eventId, now, isObjectId).0.CancelOk? && eventId !in s.events
    ensures CancelStep(s, user, eventId, now, isObjectId).0.availableSeats == None
    ensures CancelStep(s, user, eventId, now, isObjectId).1.events == s.events
    ensures var r := UpdateCards(cards, eventId, None);
            forall i :: 0 <= i < |r| ==>
              if cards[i].event.id == eventId
              then r[i].availableSeats == None && r[i].event.registeredCount == r[i].event.capacity
              else r[i] == cards[i]
  {
  }

  /** The `setUserRegistrations` updater after a cancel: `prev.filter(id => id !== eventId)`. */
  function RemoveId(ids: seq<Id>, id: Id): (r: seq<Id>)
    ensures id !in r
    ensures multiset(r) == multiset(ids)[id := 0]
  {
    if ids == [] then []
    else
      assert ids == [ids[0]] + ids[1..];
      if ids[0] == id then RemoveId(ids[1..], id)
      else [ids[0]] + RemoveId(ids[1..], id)
  }

  /** Removing an id from a concatenation removes it from each part in place, so the other ids keep their order. */
  lemma {:induction false} RemoveIdAppend(a: seq<Id>, b: seq<Id>, id: Id)
    ensures RemoveId(a + b, id) == RemoveId(a, id) + RemoveId(b, id)
  {
    if a == [] {
      assert a + b == b;
    } else {
      assert (a + b)[0] == a[0];
      assert (a + b)[1..] == a[1..] + b;
      RemoveIdAppend(a[1..], b, id);
    }
  }

  /** Removing an id that is not there changes nothing. */
  lemma {:induction false} RemoveIdAbsent(ids: seq<Id>, id: Id)
    requires id !in ids
    ensures RemoveId(ids, id) == ids
  {
    if ids != [] {
      RemoveIdAbsent(ids[1..], id);
    }
  }

  /** Registering (`[...prev, eventId]`) and then cancelling restores the registration list. */
  lemma RegisterThenCancelRestores(ids: seq<Id>, eventId: Id)
    requires eventId !in ids
    ensures eventId in ids + [eventId]
    ensures RemoveId(ids + [eventId], eventId) == ids
  {
    RemoveIdAppend(ids, [eventId], eventId);
    RemoveIdAbsent(ids, eventId);
  }
}
