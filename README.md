# Event registration: a verified model of the seat-reservation core

This project models the core of an event-management application: a Node
back end stores events and registrations in MongoDB, and a React front end
lists, filters and pages through events. The model covers these parts:

- **Documents.** The `Event` document: its validators, its defaults, the
  `trim` setters and the `availableSeats` virtual. The `Registration`
  document: its status enum, its defaults and its unique (user, event) index.
- **Seat reservation.** `registerForEvent` and `cancelRegistration` run
  against a store of events and registrations. Each handler appears twice:
  - as a pure step function (`RegisterStep`, `CancelStep`) that the lemmas
    reason about;
  - as a method of the `Store` class, which writes its two maps in the order
    the handler saves them. The `ensures` clause ties each method to its
    step function.
- **Listing.** The listing's `availableSeats` and its pagination metadata,
  and the 500 it answers for a page below 1.
- **Dashboard.** It keeps the user's active registrations, splits them into
  upcoming and past, sorts each list in place on an array, and counts them.
- **Pagination bar.** The window of at most five page numbers and the
  Prev/Next buttons.
- **Events page.**
  - It reads the filters from the URL and writes them back.
  - It builds the listing request.
  - It merges filter patches.
  - It updates its lists locally after a registration or a cancellation
    succeeds.
- **Filter bar.** It builds patches: every change returns to page 1, the
  sort value is split at `-`, "Clear Filters" resets everything, and the
  clear button shows only while a filter narrows the listing.

Proved across several calls:

- Registering twice takes one seat.
- Register → cancel → register reuses the one record.
- Any run of requests keeps every count within `[0, capacity]`.
- Any run keeps "count = number of registered records" once that holds.
- When distinct users, none of whom holds a record for the event, register
  one after another for an event that is open (valid id, exists, not past)
  and whose count lies in `[0, capacity]`, exactly the first
  `capacity - registeredCount` of them get a seat and the rest are told the
  event is fully booked.
- A concrete two-seat scenario.
- The page's local updates after a successful register or cancel keep the
  cards in step with the server: every card that matched the server's event
  before the update matches the server's new event after it.

Modelling choices:

- Time is an integer `now`.
- `ObjectId.isValid` is a function parameter `isObjectId`.
- The id a new record receives is a parameter `freshId`.
- JavaScript's `parseInt`, `String(n)`, `trim`, `split` on one character
  and `length` (in UTF-16 code units, which `maxlength` counts) are written
  out in `JsStrings`.
- The page's URL parameters are a record with one optional slot for each
  name the page reads and writes. This stands for a map from parameter name
  to value: the page ignores every other name.
- In the code, `cancelRegistration` runs its `findOne` without checking that
  the id is well formed. A malformed id makes that query throw a cast error,
  and the handler answers 500 (`CancelError`). The model follows the code in
  this.

## Model

| member | source | states |
|---|---|---|
| EventModel.CategoryName | backend/models/Event.js:40-44 | every category's name is one of the ten allowed values |
| EventModel.ParseCategory | backend/models/Event.js:40-44 | a string is accepted exactly when it is one of the ten names, and maps back to that name |
| EventModel.CategoryRoundTrip | backend/models/Event.js:43 | names and categories round-trip; there are exactly ten pairwise-distinct names |
| EventModel.EventStatusName | backend/models/Event.js:54-58 | every status's name is one of upcoming/ongoing/completed/cancelled |
| EventModel.ParseEventStatus | backend/models/Event.js:54-58 | a string is accepted exactly when it is one of the four names, and maps back to that name |
| EventModel.EventStatusRoundTrip | backend/models/Event.js:56 | status names and statuses round-trip |
| EventModel.AvailableSeatsMeaning | backend/models/Event.js:65-67 | `AvailableSeats` (the virtual) plus the count is the capacity; seats are free exactly when count < capacity; count in `[0, capacity]` iff seats in `[0, capacity]` |
| EventModel.RecountKeepsSchema | backend/models/Event.js:35-39 | a new non-negative count keeps a valid document (`SchemaValid`) valid |
| EventModel.InvalidPathsMeaning | backend/models/Event.js:3-58 | `InvalidPaths` reports each path exactly when its validator (`PathValid`) rejects the input: name absent, empty after trimming or over 150 UTF-16 units; organizer or location absent or empty after trimming; date absent; description absent, empty or over 2000 units; capacity absent or below 1; a given count below 0; category absent or outside the ten names; a given status outside the four (proved path by path in NameRule, OrganizerRule, LocationRule, DescriptionRule, CategoryRule, StatusRule) |
| EventModel.Document | backend/models/Event.js:3-58 | a validated input yields a document satisfying `SchemaValid` (lengths in UTF-16 units) with the trimmed name, organizer and location, the given description, capacity, date and category, each tag trimmed (`TrimEach`), the given count, status and image or their defaults 0, upcoming and "" |
| EventModel.NewEvent | backend/models/Event.js:3-58 | creation succeeds exactly when no path is invalid, with `maxlength` counted in UTF-16 code units; a failure carries the non-empty set of invalid paths; a success is exactly `Document` of the input |
| EventModel.NewEventStartsEmpty | backend/models/Event.js:35-39 | an event created without a count has count 0 and all of its capacity free |
| RegistrationModel.RegStatusName | backend/models/Registration.js:14-18 | every status's name is one of registered/cancelled/attended |
| RegistrationModel.ParseRegStatus | backend/models/Registration.js:14-18 | a string is accepted exactly when it is one of the three names, and maps back to that name |
| RegistrationModel.RegStatusRoundTrip | backend/models/Registration.js:16 | names and statuses round-trip |
| RegistrationModel.InvalidRegPaths | backend/models/Registration.js:4-18 | user and event are reported exactly when absent; status exactly when present and outside the enum |
| RegistrationModel.NewRegistration | backend/models/Registration.js:3-28 | creation succeeds exactly when no path is invalid; status defaults to registered, registeredAt to `now`, cancelledAt stays unset |
| RegistrationModel.CreateInputIsValid | backend/controllers/eventController.js:224-228 | the register handler's create call yields a fresh registered record stamped `now`, with no cancellation time |
| RegistrationModel.AtMostOnePerPair | backend/models/Registration.js:30 | in a consistent collection, two keys holding records for the same (user, event) are the same key |
| RegistrationModel.IndexInsert | backend/models/Registration.js:30 | an insert fails with a duplicate-key error exactly when the pair is present; otherwise it adds one record and keeps the index consistent |
| EventController.MessagesTellOutcomesApart | backend/controllers/eventController.js:165-290 | two answers of a handler carry the same `message` (`RegisterMessage`, `CancelMessage`) exactly when they are the same outcome or both successes |
| EventController.SuccessFlagMatchesStatus | backend/controllers/eventController.js:162-293 | the `success` flag is true exactly for the 2xx statuses (`RegisterHttpStatus`, `CancelHttpStatus`) of both handlers |
| EventController.RegisterStep | backend/controllers/eventController.js:157-247 | the checks run in order: invalid id (400), missing (404), past (400), full (400), then the existing record; Already registered iff open with a registered record; error iff open with an attended record; success iff open with no record or a cancelled one; failures write nothing; success takes one seat and reports `capacity - registeredCount` |
| EventController.CancelStep | backend/controllers/eventController.js:251-293 | a malformed id gives 500; not found iff no registered record; success marks the record cancelled at `now` and lowers the count only when the event exists with a positive count; the seats are null when the event is gone |
| EventController.RegisterKeepsDocuments | backend/controllers/eventController.js:211-212 | a registration keeps every event document valid under its own id |
| EventController.RegisterKeepsIndex | backend/controllers/eventController.js:205-231 | a registration keeps every record under its own (user, event) key |
| EventController.RegisterKeepsWellFormed | backend/controllers/eventController.js:205-231 | a registration keeps every document valid and every record under its own (user, event) key |
| EventController.RegisterKeepsCountsInRange | backend/controllers/eventController.js:185-190 | a registration never takes a count beyond the capacity |
| EventController.RegisterMovesOneCount | backend/controllers/eventController.js:211-231 | a registration changes only its event's count, by +1 on success, and deletes no record |
| EventController.CancelKeepsWellFormed | backend/controllers/eventController.js:269-277 | a cancellation keeps every document valid and every record under its own key |
| EventController.CancelKeepsCountsInRange | backend/controllers/eventController.js:274-277 | a cancellation never lowers a count below zero |
| EventController.CancelMovesOneCount | backend/controllers/eventController.js:269-277 | a cancellation changes at most its own event's count, by -1 and only from a positive count |
| EventController.Store.constructor | backend/models/Event.js:30-39 | a store starts from the given events, each valid under its own id with its count within capacity, and no registrations; it satisfies `Valid` (well-formed, counts in range) |
| EventController.Store.Register | backend/controllers/eventController.js:157-247 | on a valid store, the outcome and the new contents are those of `RegisterStep`, and the store stays valid |
| EventController.Store.Reserve | backend/controllers/eventController.js:192-239 | for an open event, looking up, reactivating or creating the record and saving the event give the outcome and contents of `RegisterStep` |
| EventController.Store.Reactivate | backend/controllers/eventController.js:205-221 | reactivating a cancelled record and saving the event with one more seat give the outcome and contents of `RegisterStep` |
| EventController.Store.Create | backend/controllers/eventController.js:224-246 | creating a record (which the schema or the unique index may refuse) and saving the event give the outcome and contents of `RegisterStep` |
| EventController.ReactivateResult | backend/controllers/eventController.js:205-221 | on an open event, a cancelled record becomes registered at `now` with no cancellation time, the count rises by one and the free seats after that are reported |
| EventController.CreateResult | backend/controllers/eventController.js:224-246 | on an open event without an active or cancelled record, a refused create is an error that changes nothing; an accepted one inserts the record and takes a seat |
| EventController.Store.Cancel | backend/controllers/eventController.js:251-293 | on a valid store, the outcome and the new contents are those of `CancelStep`, with the registration written before the event, and the store stays valid |
| EventController.WithSeats | backend/controllers/eventController.js:67-70 | every listed event keeps its position and document and carries `availableSeats = capacity - registeredCount` |
| EventController.CeilDiv | backend/controllers/eventController.js:90 | the result is the least `q` with `total <= q * limit` |
| EventController.PageArithmetic | backend/controllers/eventController.js:22-24 | `page < totalPages` iff `page * limit < total`; every page from 1 to totalPages skips (`Skip`) fewer documents than there are |
| EventController.Paginate | backend/controllers/eventController.js:22-104 | a page below 1 (a negative skip) fails, answered with 500; otherwise `hasNextPage` iff events remain after this page, `hasPrevPage` iff page > 1, totalPages the ceiling of total/limit and 0 exactly when there are no events |
| DashboardController.WithStatus | backend/controllers/dashboardController.js:11-14 | keeps exactly the records of the given status, and nothing else |
| DashboardController.StatusesPartition | backend/controllers/dashboardController.js:42-46 | the registered, cancelled and attended records add up to all of the user's records |
| DashboardController.Upcoming | backend/controllers/dashboardController.js:31-32 | every upcoming entry's date is at or after `now` and carries its available seats |
| DashboardController.Past | backend/controllers/dashboardController.js:33-34 | every past entry's date is before `now` and carries its available seats |
| DashboardController.Kept | backend/controllers/dashboardController.js:22-23 | a record whose event is missing is skipped, so no more entries than records; KeptMeaning and KeptCount fix the entries and their number |
| DashboardController.KeptMeaning | backend/controllers/dashboardController.js:22-29 | every record whose event exists gives its entry, and every entry carries its event, that event's free seats, and the id and registration time of a record for that event; there are exactly as many entries as records whose event exists |
| DashboardController.KeptCount | backend/controllers/dashboardController.js:22-29 | the number of entries is the number of records whose event exists |
| DashboardController.PartitionIsExact | backend/controllers/dashboardController.js:22-37 | every kept entry lands in exactly one of the two lists (multiset and length) |
| DashboardController.Swap | backend/controllers/dashboardController.js:39-40 | exchanges two array cells and keeps the multiset |
| DashboardController.SortByDate | backend/controllers/dashboardController.js:39-40 | sorts the array in place by date, ascending or descending, as a permutation |
| DashboardController.Partition | backend/controllers/dashboardController.js:19-37 | the `forEach` loop pushes exactly the upcoming and the past entries, in order |
| DashboardController.SortedArray | backend/controllers/dashboardController.js:39-40 | the sorted copy is ordered and a permutation of its input |
| DashboardController.GetDashboard | backend/controllers/dashboardController.js:6-60 | upcoming/past are permutations of their partitions of the active records, upcoming ascending and past descending; stats count all active records, the two lists and the cancelled records; upcomingCount + pastCount <= totalRegistered, and it equals the number of active records whose event exists |
| PaginationBar.RendersIffMoreThanOnePage | frontend/src/components/Pagination.jsx:4 | the bar (`Renders`) shows exactly when the page was served (page >= 1) and there are more events than fit on one page |
| PaginationBar.PageNumbers | frontend/src/components/Pagination.jsx:8-24 | min(5, totalPages) consecutive pages within `[1, totalPages]`, including the current page when it is in range |
| PaginationBar.EnabledButtonsStayOnPages | frontend/src/components/Pagination.jsx:33-61 | an enabled Prev or Next leads to an existing page; with several pages one of them is enabled |
| PaginationBar.ButtonsAgreeWithListing | frontend/src/components/Pagination.jsx:35-56 | for a served page, Prev is disabled (`PrevDisabled`) iff there is no previous page, Next (`NextDisabled`) iff there is no next page |
| JsStrings.Trim | backend/models/Event.js:7 | the result is the input without its leading and trailing whitespace, with no whitespace at either end |
| JsStrings.TrimIdempotent | backend/models/Event.js:7 | trimming twice is trimming once |
| JsStrings.Utf16Length | backend/models/Event.js:8 | a string's `length` lies between its number of characters and twice that |
| JsStrings.Utf16LengthIsSize | backend/models/Event.js:8 | `length` equals the number of characters exactly when no character lies beyond the Basic Multilingual Plane |
| JsStrings.Utf16LengthAppend | backend/models/Event.js:28 | `length` adds up over a concatenation |
| JsStrings.ParseInt | frontend/src/pages/Events.jsx:25 | a number is read only when the string holds a digit |
| JsStrings.ParseIntOfIntToString | frontend/src/pages/Events.jsx:25 | parsing a stringified integer gives it back |
| JsStrings.Split | frontend/src/components/EventFilters.jsx:52 | the pieces hold no separator and join back into the input |
| JsStrings.SplitAtSeparator | frontend/src/components/EventFilters.jsx:52 | a value holding the separator splits into at least two pieces |
| JsStrings.SplitJoin | frontend/src/components/EventFilters.jsx:52 | splitting separator-free pieces joined by the separator gives the pieces back |
| EventsPage.GetOr | frontend/src/pages/Events.jsx:18-24 | a present non-empty parameter gives its value; an absent or empty one gives the fallback |
| EventsPage.PageParam | frontend/src/pages/Events.jsx:25 | the page is never 0, and 1 when the parameter is absent |
| EventsPage.ParseFilters | frontend/src/pages/Events.jsx:17-26 | category, sort field and order are never empty, the page never 0; an empty URL gives the defaults |
| EventsPage.ToSearchParams | frontend/src/pages/Events.jsx:65-77 | setting the parameters one at a time gives `UrlParams`: text filters appear when non-empty (category also not "All"), sort field and order when they differ from date/asc, the page when above 1 |
| EventsPage.UrlEmptyIffDefault | frontend/src/pages/Events.jsx:65-77 | for representable filters, the URL is empty exactly for the default filters |
| EventsPage.UrlRoundTrip | frontend/src/pages/Events.jsx:17-77 | reading back the URL written for filters with page >= 1 and a non-empty category, sort field and order restores them |
| EventsPage.UrlLosesUnrepresentable | frontend/src/pages/Events.jsx:17-77 | every other filter state does not survive the trip |
| JsStrings.IntToString | frontend/src/pages/Events.jsx:75 | the page number's text starts with `-` exactly for negative numbers, and is never empty |
| EventsPage.LookupAppend | frontend/src/pages/Events.jsx:38-48 | `get` on a concatenation finds the first part's value, if any, and otherwise the second's |
| EventsPage.FetchParams | frontend/src/pages/Events.jsx:38-48 | appending the parameters one at a time gives `FetchQuery`, in the handler's order |
| EventsPage.FetchLookup | frontend/src/pages/Events.jsx:38-48 | each parameter of the request reads as the value sent for it, or as absent |
| EventsPage.FetchAlwaysSortsAndPages | frontend/src/pages/Events.jsx:38-48 | the request always carries the sort field, the order, the page and `limit=12`, and omits the category exactly when it is "All" |
| EventsPage.FilterValueDeterminesFilters | frontend/src/pages/Events.jsx:17-26 | filters that agree on every key are equal |
| EventsPage.Merge | frontend/src/pages/Events.jsx:86-88 | every key in the patch takes the patch's value and every other filter keeps its value |
| EventsPage.Combine | frontend/src/pages/Events.jsx:86-88 | two patches spread in turn: the later one wins on a shared key |
| EventsPage.MergeEmpty | frontend/src/pages/Events.jsx:86-88 | an empty patch changes nothing |
| EventsPage.MergeIdempotent | frontend/src/pages/Events.jsx:86-88 | the same patch applied twice is applied once |
| EventsPage.MergeCompose | frontend/src/pages/Events.jsx:86-88 | two successive changes equal one change by the combined patch |
| EventsPage.PageChangeTouchesOnlyPage | frontend/src/pages/Events.jsx:91-94 | a page change (`PagePatch`) sets the page, changes nothing else and keeps representable filters representable |
| EventsPage.UpdateCards | frontend/src/pages/Events.jsx:110-120 | length, order and ids are kept; only the cards with the matching id change, taking the response's seats and `capacity - seats` as their count |
| EventsPage.RegisterUpdateMirrorsServer | frontend/src/pages/Events.jsx:109-120 | after a successful registration, cards that matched the server's events still match its new events |
| EventsPage.CancelUpdateMirrorsServer | frontend/src/pages/Events.jsx:136-146 | after a successful cancellation, cards that matched the server's events still match its new events |
| EventsPage.CancelOfGoneEventClearsSeats | frontend/src/pages/Events.jsx:136-146 | when the event is gone from the server, the cancellation answers null seats; a stale card of that event then shows no seat count and a count equal to its capacity, and every other card is unchanged |
| EventsPage.RemoveId | frontend/src/pages/Events.jsx:136 | the id disappears and every other id keeps its multiplicity |
| EventsPage.RemoveIdAppend | frontend/src/pages/Events.jsx:136 | removal acts on each part of a concatenation in place, so the other ids keep their order |
| EventsPage.RemoveIdAbsent | frontend/src/pages/Events.jsx:136 | removing an absent id changes nothing |
| EventsPage.RegisterThenCancelRestores | frontend/src/pages/Events.jsx:109-136 | appending an id and then filtering it out restores the list |
| EventFilters.ControlChangeResetsPage | frontend/src/components/EventFilters.jsx:35-49 | a category, location or date change (`PatchFor`) sets its own filter and page 1, and nothing else |
| EventFilters.SortPatch | frontend/src/components/EventFilters.jsx:51-54 | the sort patch sets the field and the order, neither holding `-`, and page 1, and no other filter |
| EventFilters.SortPatchSplits | frontend/src/components/EventFilters.jsx:52 | the value `field-order` sorts by `field` in `order` |
| EventFilters.SortOptionsAreFieldOrder | frontend/src/components/EventFilters.jsx:160-165 | each of the six options sorts by date, name or capacity, ascending or descending |
| EventFilters.SortValueRoundTrip | frontend/src/components/EventFilters.jsx:156 | re-selecting the shown option (`SortValue`) keeps the sort and returns to page 1 |
| EventFilters.SearchPatch | frontend/src/components/EventFilters.jsx:28-30 | a search patch is sent exactly when the input differs from the current search |
| EventFilters.SearchPatchApplies | frontend/src/components/EventFilters.jsx:29 | a sent search patch sets the search and page 1, and nothing else |
| EventFilters.ClearGivesDefaults | frontend/src/components/EventFilters.jsx:56-74 | clearing (`ClearPatch`) gives the default filters, hides the clear button and empties the URL |
| EventFilters.ActiveIffUrlNarrows | frontend/src/components/EventFilters.jsx:70-74 | filters are active (`HasActiveFilters`) exactly when the URL carries a search, category, location or date |
| EventFilters.ActiveIgnoresSortAndPage | frontend/src/components/EventFilters.jsx:70-74 | a change of sort or page never shows or hides the clear button |
| ReservationProperties.RegisterTwiceTakesOneSeat | backend/controllers/eventController.js:185-203 | a repeated registration changes nothing and is told "fully booked" when the event is now full, "already registered" otherwise |
| ReservationProperties.CancelRegisteredResult | backend/controllers/eventController.js:256-285 | cancelling a registered record of an event with seats taken marks it cancelled at `now`, lowers the count by one and reports the resulting free seats |
| ReservationProperties.CancelAfterRegister | backend/controllers/eventController.js:256-283 | cancelling right after registering frees the seat again and marks the record cancelled |
| ReservationProperties.RegisterOkResult | backend/controllers/eventController.js:205-239 | after a successful registration the user's record is active and the event has one more seat taken, a count above zero |
| ReservationProperties.RegisterCancelRegister | backend/controllers/eventController.js:205-220 | the second registration reuses the record, restamped and registered, adds no record, and leaves the count one above the start |
| ReservationProperties.RegisteredForAfterUpdate | backend/models/Registration.js:30 | overwriting one record changes only its own event's set of registered keys (`RegisteredFor`) |
| ReservationProperties.RegisterKeepsLedger | backend/controllers/eventController.js:205-231 | a registration keeps each count equal to its number of registered records |
| ReservationProperties.CancelKeepsLedger | backend/controllers/eventController.js:269-277 | a cancellation keeps each count equal to its number of registered records |
| ReservationProperties.RunKeepsCountsInRange | backend/controllers/eventController.js:185-277 | any sequence of requests keeps the store valid and every count in `[0, capacity]`, and deletes no record or event |
| ReservationProperties.RunKeepsLedger | backend/controllers/eventController.js:205-277 | any sequence of requests keeps the ledger matching once it does |
| ReservationProperties.RegisterAll | backend/controllers/eventController.js:157-247 | one outcome per user |
| ReservationProperties.SeatsGoToFirstComers | backend/controllers/eventController.js:185-238 | among distinct new users, exactly the first `capacity - registeredCount` get a seat, the rest are told "fully booked", and the count rises by that many |
| ReservationProperties.FreshUserStep | backend/controllers/eventController.js:185-239 | a user without a record gets a seat exactly when one is free and is otherwise told "fully booked"; the event keeps its date and capacity, its count rises by one exactly on success, and no key but this user's is added |
| ReservationProperties.ScenarioA | backend/controllers/eventController.js:224-239 | A takes the first of two seats |
| ReservationProperties.ScenarioB | backend/controllers/eventController.js:224-239 | B takes the last seat |
| ReservationProperties.ScenarioFull | backend/controllers/eventController.js:185-190 | at a full event, anyone is turned away and nothing changes |
| ReservationProperties.ScenarioCancelA | backend/controllers/eventController.js:269-283 | A's cancellation keeps the record as cancelled and frees one seat |
| ReservationProperties.ScenarioC | backend/controllers/eventController.js:224-239 | C takes the freed seat with a new record |
| ReservationProperties.TwoSeatScenario | backend/controllers/eventController.js:157-293 | the whole run: A and B served, C and B turned away as full, A cancels (1 seat), C served (0 seats) |

## Left out

- Concurrency and atomicity: the handlers are modelled as running one at a time. The races between load, change and save, and the unguarded pair of writes in a cancellation, are not modelled. The two cancel writes do appear as two steps in `Store.Cancel`.
- MongoDB queries: `find`, `countDocuments`, `populate`, `distinct`, the `$regex` filter and the sort object of `getEvents`. The listing is modelled from the documents the query returns.
- `getLocations` and `getCategories` are not part of this model: they are `distinct` queries.
- `getEventById` is not part of this model. It answers 400 for a malformed id and 404 for a missing event, adds the seat virtual, and looks up whether the user holds a registered record; those checks repeat the register handler's first two, and the lookup is a query.
- `userRegistrations` in `getEvents` is left out. It is a query projection.
- The clock: `new Date()` is the parameter `now`, and dates are integers. Date formatting is out of scope.
- `ObjectId.isValid` and the generation of new ids are parameters: the source keeps them in a library.
- URL percent-encoding and the order of the page's own URL parameters are not modelled. The page reads its parameters by name.
- `JsStrings.ParseInt` reads an unbounded integer. It does not model floating-point precision for numerals too long to represent exactly.
- `EventController.Paginate` requires `limit >= 1`. A limit that `parseInt` turns into `NaN`, a zero limit (which gives `Infinity` pages and no limit on the query) and a negative limit are not modelled. A page that `parseInt` turns into `NaN` is not modelled either; a page below 1 is, as the 500 it causes.
- The dashboard query's `.sort({ registeredAt: -1 })` is not modelled: the records arrive in any order, which only decides the order of entries with equal dates.
- `DashboardController.SortByDate` is an insertion sort. It is proved to sort and to permute, but not to be stable like the engine's `Array.prototype.sort`.
- The `lowercase` setter on tags is not modelled: the model only trims tags.
- EventModel.NewEvent, EventModel.SchemaValid and EventController.Store: `capacity` and `registeredCount` are Mongoose `Number`s, which admit fractions such as `capacity: 2.5`. The model takes them as integers, as every seeded event has them. With a fractional capacity, `+= 1` could lift the count above the capacity, so `CountsInRange` and `Store.Valid` are promised only for integer counts.
- The schema's `timestamps: true` adds `createdAt` and `updatedAt` to both collections. Neither field is modelled. No handler reads them; a client could only name one as the listing's `sortBy`, and the listing's sort is not modelled.
- `EventFilters.SortPatch` requires a value holding `-`, as all six options do. A value without one would set `sortOrder` to `undefined`, and the filter state has no slot for that.
- Rendering, toasts, `window.scrollTo`, the login guard in `handleRegister`, the loading flags and the 500 ms debounce timer are not modelled. The search patch is modelled as sent once the timer fires.
- The seed data is not modelled. It is database I/O.
- The seats percentage on the detail page is not modelled. It is floating point.
