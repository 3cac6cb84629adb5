/**
 * The Event document: its fields, the constraints the schema puts on them,
 * the defaults it fills in, and the derived `availableSeats` value.
 */
module EventModel {
  import opened Wrappers
  import opened JsStrings

  /** A document identifier, as the string the HTTP layer carries. */
  type Id = string

  /** The ten categories an event may have. */
  datatype Category =
    Technology | Business | Music | Sports | Art | Education | Health | Food | Networking | Other

  /** The lifecycle label of an event (not used by the reservation logic). */
  datatype EventStatus = Upcoming | Ongoing | Completed | EventCancelled

  /** The category names exactly as the schema's enumeration lists them. */
  const CategoryNames: seq<string> :=
    ["Technology", "Business", "Music", "Sports", "Art", "Education", "Health", "Food", "Networking", "Other"]

  const EventStatusNames: seq<string> := ["upcoming", "ongoing", "completed", "cancelled"]

  function CategoryName(c: Category): (s: string)
    ensures s in CategoryNames
  {
    match c
    case Technology => "Technology"
    case Business => "Business"
    case Music => "Music"
    case Sports => "Sports"
    case Art => "Art"
    case Education => "Education"
    case Health => "Health"
    case Food => "Food"
    case Networking => "Networking"
    case Other => "Other"
  }

  /** The enum validator: a string is a category exactly when it is one of the ten names. */
  function ParseCategory(s: string): (r: Option<Category>)
    ensures r.Some? <==> s in CategoryNames
    ensures r.Some? ==> CategoryName(r.value) == s
  {
    if s == "Technology" then Some(Technology)
    else if s == "Business" then Some(Business)
    else if s == "Music" then Some(Music)
    else if s == "Sports" then Some(Sports)
    else if s == "Art" then Some(Art)
    else if s == "Education" then Some(Education)
    else if s == "Health" then Some(Health)
    else if s == "Food" then Some(Food)
    else if s == "Networking" then Some(Networking)
    else if s == "Other" then Some(Other)
    else None
  }

  function EventStatusName(t: EventStatus): (s: string)
    ensures s in EventStatusNames
  {
    match t
    case Upcoming => "upcoming"
    case Ongoing => "ongoing"
    case Completed => "completed"
    case EventCancelled => "cancelled"
  }

  function ParseEventStatus(s: string): (r: Option<EventStatus>)
    ensures r.Some? <==> s in EventStatusNames
    ensures r.Some? ==> EventStatusName(r.value) == s
  {
    if s == "upcoming" then Some(Upcoming)
    else if s == "ongoing" then Some(Ongoing)
    else if s == "completed" then Some(Completed)
    else if s == "cancelled" then Some(EventCancelled)
    else None
  }

  /** Every category name parses back to its category, and there are ten distinct ones. */
  lemma CategoryRoundTrip(c: Category)
    ensures ParseCategory(CategoryName(c)) == Some(c)
    ensures |CategoryNames| == 10
    ensures forall i, j :: 0 <= i < j < |CategoryNames| ==> CategoryNames[i] != CategoryNames[j]
  {
  }

  lemma EventStatusRoundTrip(t: EventStatus)
    ensures ParseEventStatus(EventStatusName(t)) == Some(t)
  {
  }

  /** An event document as stored. Dates are instants on an integer clock. */
  datatype Event = Event(
    id: Id,
    name: string,
    organizer: string,
    location: string,
    date: int,
    description: string,
    capacity: int,
    registeredCount: int,
    category: Category,
    tags: seq<string>,
    imageUrl: string,
    status: EventStatus)

  const MaxNameLength := 150
  const MaxDescriptionLength := 2000

  /**
   * The constraints the schema's validators enforce on every saved event;
   * `maxlength` counts UTF-16 code units, as JavaScript's `length` does.
   */
  predicate SchemaValid(e: Event)
  {
    && 0 < |e.name| && Utf16Length(e.name) <= MaxNameLength
    && 0 < |e.organizer|
    && 0 < |e.location|
    && 0 < |e.description| && Utf16Length(e.description) <= MaxDescriptionLength
    && e.capacity >= 1
    && e.registeredCount >= 0
  }

  /** The `availableSeats` virtual. */
  function AvailableSeats(e: Event): int
  {
    e.capacity - e.registeredCount
  }

  /** Seats left and seats taken always add up to the capacity; there is a seat left exactly when the count is below it. */
  lemma AvailableSeatsMeaning(e: Event)
    ensures AvailableSeats(e) + e.registeredCount == e.capacity
    ensures AvailableSeats(e) > 0 <==> e.registeredCount < e.capacity
    ensures 0 <= e.registeredCount <= e.capacity <==> 0 <= AvailableSeats(e) <= e.capacity
  {
  }

  /** The validators do not look at the count beyond its sign, so a new count keeps a valid document valid. */
  lemma RecountKeepsSchema(e: Event, n: int)
    requires SchemaValid(e) && n >= 0
    ensures SchemaValid(e.(registeredCount := n))
  {
  }

  // ------------------------------------------------------------- validation

  /** The fields handed to the model when a document is created; `None` is an absent field. */
  datatype EventInput = EventInput(
    name: Option<string>,
    organizer: Option<string>,
    location: Option<string>,
    date: Option<int>,
    description: Option<string>,
    capacity: Option<int>,
    registeredCount: Option<int>,
    category: Option<string>,
    tags: seq<string>,
    imageUrl: Option<string>,
    status: Option<string>)

  /** The schema paths a validation error can name. */
  datatype Path =
    NamePath | OrganizerPath | LocationPath | DatePath | DescriptionPath
    | CapacityPath | RegisteredCountPath | CategoryPath | StatusPath

  /** A `required` string passes when present and non-empty (after the setters ran). */
  predicate RequiredString(v: Option<string>)
  {
    v.Some? && |v.value| > 0
  }

  function TrimOpt(v: Option<string>): Option<string>
  {
    match v
    case None => None
    case Some(s) => Some(Trim(s))
  }

  function Defaulted<T>(v: Option<T>, d: T): T
  {
    match v
    case None => d
    case Some(x) => x
  }

  /** The `trim` setter applied to each tag. */
  function TrimEach(tags: seq<string>): (r: seq<string>)
    ensures |r| == |tags| && forall i :: 0 <= i < |tags| ==> r[i] == Trim(tags[i])
  {
    seq(|tags|, i requires 0 <= i < |tags| => Trim(tags[i]))
  }

  const AllPaths: set<Path> :=
    {NamePath, OrganizerPath, LocationPath, DatePath, DescriptionPath,
     CapacityPath, RegisteredCountPath, CategoryPath, StatusPath}

  /** Whether the validators of path `p` accept the input (after setters and defaults). */
  predicate PathValid(input: EventInput, p: Path)
  {
    match p
    case NamePath => RequiredString(TrimOpt(input.name)) && Utf16Length(TrimOpt(input.name).value) <= MaxNameLength
    case OrganizerPath => RequiredString(TrimOpt(input.organizer))
    case LocationPath => RequiredString(TrimOpt(input.location))
    case DatePath => input.date.Some?
    case DescriptionPath =>
      RequiredString(input.description) && Utf16Length(input.description.value) <= MaxDescriptionLength
    case CapacityPath => input.capacity.Some? && input.capacity.value >= 1
    case RegisteredCountPath => Defaulted(input.registeredCount, 0) >= 0
    case CategoryPath => input.category.Some? && ParseCategory(input.category.value).Some?
    case StatusPath => ParseEventStatus(Defaulted(input.status, "upcoming")).Some?
  }

  /** Every path whose validators reject the input; mongoose reports them all at once. */
  function InvalidPaths(input: EventInput): (bad: set<Path>)
    ensures forall p :: p in bad <==> !PathValid(input, p)
  {
    set p | p in AllPaths && !PathValid(input, p)
  }

  lemma NameRule(input: EventInput)
    ensures NamePath in InvalidPaths(input) <==>
              input.name.None? || Trim(input.name.value) == []
              || Utf16Length(Trim(input.name.value)) > MaxNameLength
  {
  }

  lemma OrganizerRule(input: EventInput)
    ensures OrganizerPath in InvalidPaths(input) <==> input.organizer.None? || Trim(input.organizer.value) == []
  {
  }

  lemma LocationRule(input: EventInput)
    ensures LocationPath in InvalidPaths(input) <==> input.location.None? || Trim(input.location.value) == []
  {
  }

  lemma DescriptionRule(input: EventInput)
    ensures DescriptionPath in InvalidPaths(input) <==>
              input.description.None? || input.description.value == []
              || Utf16Length(input.description.value) > MaxDescriptionLength
  {
  }

  lemma CategoryRule(input: EventInput)
    ensures CategoryPath in InvalidPaths(input) <==> input.category.None? || input.category.value !in CategoryNames
  {
  }

  lemma StatusRule(input: EventInput)
    ensures StatusPath in InvalidPaths(input) <==> input.status.Some? && input.status.value !in EventStatusNames
  {
  }

  /**
   * What each validator rejects, on the input's own fields: a required string
   * that is absent or empty (after trimming, for the three trimmed paths), a
   * name or description over its `maxlength` in UTF-16 code units, an absent
   * date, a capacity below 1, a count below 0, and a category or status
   * outside its enumeration; the last two, and the count, are checked only
   * when present, since they have defaults.
   */
  lemma InvalidPathsMeaning(input: EventInput)
    ensures NamePath in InvalidPaths(input) <==>
              input.name.None? || Trim(input.name.value) == []
              || Utf16Length(Trim(input.name.value)) > MaxNameLength
    ensures OrganizerPath in InvalidPaths(input) <==> input.organizer.None? || Trim(input.organizer.value) == []
    ensures LocationPath in InvalidPaths(input) <==> input.location.None? || Trim(input.location.value) == []
    ensures DatePath in InvalidPaths(input) <==> input.date.None?
    ensures DescriptionPath in InvalidPaths(input) <==>
              input.description.None? || input.description.value == []
              || Utf16Length(input.description.value) > MaxDescriptionLength
    ensures CapacityPath in InvalidPaths(input) <==> input.capacity.None? || input.capacity.value < 1
    ensures RegisteredCountPath in InvalidPaths(input) <==>
              input.registeredCount.Some? && input.registeredCount.value < 0
    ensures CategoryPath in InvalidPaths(input) <==> input.category.None? || input.category.value !in CategoryNames
    ensures StatusPath in InvalidPaths(input) <==> input.status.Some? && input.status.value !in EventStatusNames
  {
    NameRule(input);
    OrganizerRule(input);
    LocationRule(input);
    DescriptionRule(input);
    CategoryRule(input);
    StatusRule(input);
  }

  /** The document built from an input that passes every validator. */
  function Document(id: Id, input: EventInput): (e: Event)
    requires InvalidPaths(input) == {}
    ensures SchemaValid(e) && e.id == id
    ensures e.registeredCount == Defaulted(input.registeredCount, 0)
    ensures input.capacity == Some(e.capacity) && input.date == Some(e.date)
    ensures input.status.None? ==> e.status == Upcoming
    ensures input.imageUrl.None? ==> e.imageUrl == ""
    ensures input.name.Some? && e.name == Trim(input.name.value)
    ensures input.organizer.Some? && e.organizer == Trim(input.organizer.value)
    ensures input.location.Some? && e.location == Trim(input.location.value)
    ensures input.description == Some(e.description)
    ensures input.category == Some(CategoryName(e.category))
    ensures |e.tags| == |input.tags| && forall i :: 0 <= i < |input.tags| ==> e.tags[i] == Trim(input.tags[i])
    ensures input.imageUrl.Some? ==> input.imageUrl == Some(e.imageUrl)
    ensures input.status.Some? ==> input.status == Some(EventStatusName(e.status))
  {
    assert PathValid(input, NamePath) && PathValid(input, OrganizerPath) && PathValid(input, LocationPath);
    assert PathValid(input, DatePath) && PathValid(input, DescriptionPath) && PathValid(input, CapacityPath);
    assert PathValid(input, RegisteredCountPath) && PathValid(input, CategoryPath) && PathValid(input, StatusPath);
    Event(
      id,
      TrimOpt(input.name).value,
      TrimOpt(input.organizer).value,
      TrimOpt(input.location).value,
      input.date.value,
      input.description.value,
      input.capacity.value,
      Defaulted(input.registeredCount, 0),
      ParseCategory(input.category.value).value,
      TrimEach(input.tags),
      Defaulted(input.imageUrl, ""),
      ParseEventStatus(Defaulted(input.status, "upcoming")).value)
  }

  /**
   * Creating an event document: apply the `trim` setters and the defaults,
   * then validate; the document exists only when no path is invalid.
   */
  function NewEvent(id: Id, input: EventInput): (r: Result<Event, set<Path>>)
    ensures r.Success? <==> InvalidPaths(input) == {}
    ensures r.Failure? ==> r.error == InvalidPaths(input) && r.error != {}
    ensures r.Success? ==> SchemaValid(r.value) && r.value.id == id
    ensures r.Success? ==> r.value.registeredCount == Defaulted(input.registeredCount, 0)
    ensures r.Success? ==> input.capacity == Some(r.value.capacity) && input.date == Some(r.value.date)
    ensures r.Success? && input.status.None? ==> r.value.status == Upcoming
    ensures r.Success? && input.imageUrl.None? ==> r.value.imageUrl == ""
    ensures r.Success? ==> input.name.Some? && r.value.name == Trim(input.name.value)
    ensures r.Success? ==> input.category == Some(CategoryName(r.value.category))
    ensures r.Success? ==> r.value == Document(id, input)
  {
    var bad := InvalidPaths(input);
    if bad != {} then Failure(bad) else Success(Document(id, input))
  }

  /** An event without a count of its own starts with every seat free. */
  lemma NewEventStartsEmpty(id: Id, input: EventInput)
    requires InvalidPaths(input) == {} && input.registeredCount.None?
    ensures NewEvent(id, input).Success?
    ensures NewEvent(id, input).value.registeredCount == 0
    ensures input.capacity == Some(AvailableSeats(NewEvent(id, input).value))
  {
    var e := Document(id, input);
    assert NewEvent(id, input) == Success(e);
  }
}
