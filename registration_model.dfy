/**
 * The Registration document: who registered for which event, the status of
 * that registration, its timestamps, and the unique (user, event) index.
 */
module RegistrationModel {
  import opened Wrappers
  import opened EventModel

  datatype RegStatus = Registered | Cancelled | Attended

  const RegStatusNames: seq<string> := ["registered", "cancelled", "attended"]

  function RegStatusName(t: RegStatus): (s: string)
    ensures s in RegStatusNames
  {
    match t
    case Registered => "registered"
    case Cancelled => "cancelled"
    case Attended => "attended"
  }

  function ParseRegStatus(s: string): (r: Option<RegStatus>)
    ensures r.Some? <==> s in RegStatusNames
    ensures r.Some? ==> RegStatusName(r.value) == s
  {
    if s == "registered" then Some(Registered)
    else if s == "cancelled" then Some(Cancelled)
    else if s == "attended" then Some(Attended)
    else None
  }

  lemma RegStatusRoundTrip(t: RegStatus)
    ensures ParseRegStatus(RegStatusName(t)) == Some(t)
  {
  }

  /** A registration document; `cancelledAt` is `None` while unset. */
  datatype Registration = Registration(
    id: Id,
    user: Id,
    event: Id,
    status: RegStatus,
    registeredAt: int,
    cancelledAt: Option<int>)

  /** The key of the unique index on (user, event). */
  type Key = (Id, Id)

  function KeyOf(r: Registration): Key
  {
    (r.user, r.event)
  }

  /** The fields handed to `Registration.create`; `None` is an absent field. */
  datatype RegistrationInput = RegistrationInput(
    user: Option<Id>,
    event: Option<Id>,
    status: Option<string>,
    registeredAt: Option<int>,
    cancelledAt: Option<int>)

  datatype RegPath = UserPath | EventPath | RegStatusPath

  /** The paths whose validators reject the input. */
  function InvalidRegPaths(input: RegistrationInput): (bad: set<RegPath>)
    ensures UserPath in bad <==> input.user.None?
    ensures EventPath in bad <==> input.event.None?
    ensures RegStatusPath in bad <==> input.status.Some? && input.status.value !in RegStatusNames
  {
    (if input.user.None? then {UserPath} else {})
    + (if input.event.None? then {EventPath} else {})
    + (if input.status.Some? && ParseRegStatus(input.status.value).None? then {RegStatusPath} else {})
  }

  /**
   * Creating a registration document at time `now`: `status` defaults to
   * registered, `registeredAt` to the creation time, `cancelledAt` stays unset.
   */
  function NewRegistration(id: Id, input: RegistrationInput, now: int): (r: Result<Registration, set<RegPath>>)
    ensures r.Success? <==> InvalidRegPaths(input) == {}
    ensures r.Failure? ==> r.error == InvalidRegPaths(input) && r.error != {}
    ensures r.Success? ==> input.user == Some(r.value.user) && input.event == Some(r.value.event) && r.value.id == id
    ensures r.Success? && input.status.None? ==> r.value.status == Registered
    ensures r.Success? && input.status.Some? ==> RegStatusName(r.value.status) == input.status.value
    ensures r.Success? ==> r.value.registeredAt == Defaulted(input.registeredAt, now)
    ensures r.Success? ==> r.value.cancelledAt == input.cancelledAt
  {
    var bad := InvalidRegPaths(input);
    if bad != {} then
      Failure(bad)
    else
      assert UserPath !in bad && EventPath !in bad && RegStatusPath !in bad;
      var status := if input.status.None? then Registered else ParseRegStatus(input.status.value).value;
      Success(Registration(id, input.user.value, input.event.value, status,
                           Defaulted(input.registeredAt, now), input.cancelledAt))
  }

  /** The input the register handler gives `Registration.create`. */
  function CreateInput(user: Id, event: Id): RegistrationInput
  {
    RegistrationInput(Some(user), Some(event), Some("registered"), None, None)
  }

  /** What the register handler creates is a fresh registered record stamped `now`. */
  lemma CreateInputIsValid(id: Id, user: Id, event: Id, now: int)
    ensures NewRegistration(id, CreateInput(user, event), now)
         == Success(Registration(id, user, event, Registered, now, None))
  {
  }

  // ------------------------------------------------------ the unique index

  /** The collection, keyed by its unique index: every record sits under its own (user, event). */
  predicate IndexConsistent(regs: map<Key, Registration>)
  {
    forall k :: k in regs ==> KeyOf(regs[k]) == k
  }

  /** In a consistent collection, two records with the same (user, event) are the same record. */
  lemma AtMostOnePerPair(regs: map<Key, Registration>, k1: Key, k2: Key)
    requires IndexConsistent(regs)
    requires k1 in regs && k2 in regs && KeyOf(regs[k1]) == KeyOf(regs[k2])
    ensures k1 == k2 && regs[k1] == regs[k2]
  {
  }

  datatype IndexError = DuplicateKey(key: Key)

  /** Inserting a document under the unique index: refused when its (user, event) is taken. */
  function IndexInsert(regs: map<Key, Registration>, r: Registration): (out: Result<map<Key, Registration>, IndexError>)
    ensures out.Failure? <==> KeyOf(r) in regs
    ensures out.Failure? ==> out.error == DuplicateKey(KeyOf(r))
    ensures out.Success? ==> out.value.Keys == regs.Keys + {KeyOf(r)} && |out.value| == |regs| + 1
    ensures out.Success? ==> out.value[KeyOf(r)] == r && forall k :: k in regs ==> out.value[k] == regs[k]
    ensures out.Success? && IndexConsistent(regs) ==> IndexConsistent(out.value)
  {
    if KeyOf(r) in regs then Failure(DuplicateKey(KeyOf(r))) else Success(regs[KeyOf(r) := r])
  }
}
