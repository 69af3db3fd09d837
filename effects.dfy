/** What a handler does to its collaborators: the calls it makes on the
    person, device and token repositories and on the unit of work, the domain
    events it raises, and the notifications it pushes. */
module Effects {
  import opened Primitives
  import opened Entities
  import opened Commands

  /** One call on a repository or on the unit of work, with its argument. */
  datatype RepoCall =
    | PersonGetByEmail(email: string)
    | PersonGetByUserNameAndPassword(user: string, password: string)
    | PersonGetBySerialKey(serialKey: string)
    | PersonAdd(person: Person)
    | PersonUpdate(person: Person)
    | DeviceGetByPerson(owner: Guid)
    | DeviceGetByIdentification(identification: string)
    | DeviceAdd(device: Device)
    | DeviceUpdate(device: Device)
    | TokenAdd(token: Token)
    | TokenUpdate(token: Token)
    | UnitOfWorkCommit
  {
    /** Add and Update change a repository; lookups and Commit do not. */
    predicate IsWrite()
    {
      PersonAdd? || PersonUpdate? || DeviceAdd? || DeviceUpdate? || TokenAdd? || TokenUpdate?
    }
  }

  /** UserForgotPasswordRequestedEvent, without its wall-clock timestamp. */
  datatype DomainEvent = UserForgotPasswordRequested(person: Person)

  /** Everything one command leaves behind besides the repositories' contents. */
  datatype Trace = Trace(notes: seq<Notification>, calls: seq<RepoCall>, events: seq<DomainEvent>)
  {
    function Then(next: Trace): Trace
    {
      Trace(notes + next.notes, calls + next.calls, events + next.events)
    }
  }

  /** The arguments of the calls `pick` selects, in call order. */
  function Select<T>(log: seq<RepoCall>, pick: RepoCall -> Option<T>): (r: seq<T>)
    ensures |r| <= |log|
  {
    if log == [] then []
    else (match pick(log[0]) case Some(x) => [x] case None => []) + Select(log[1..], pick)
  }

  lemma {:induction false} SelectAppend<T>(a: seq<RepoCall>, b: seq<RepoCall>, pick: RepoCall -> Option<T>)
    ensures Select(a + b, pick) == Select(a, pick) + Select(b, pick)
  {
    if a == [] {
      assert a + b == b;
    } else {
      assert (a + b)[0] == a[0];
      assert (a + b)[1..] == a[1..] + b;
      SelectAppend(a[1..], b, pick);
    }
  }

  function AddedPerson(c: RepoCall): Option<Person>
  {
    if c.PersonAdd? then Some(c.person) else None
  }

  function PersonsAdded(log: seq<RepoCall>): seq<Person>
  {
    Select(log, AddedPerson)
  }

  function UpdatedPerson(c: RepoCall): Option<Person>
  {
    if c.PersonUpdate? then Some(c.person) else None
  }

  function PersonsUpdated(log: seq<RepoCall>): seq<Person>
  {
    Select(log, UpdatedPerson)
  }

  function AddedDevice(c: RepoCall): Option<Device>
  {
    if c.DeviceAdd? then Some(c.device) else None
  }

  function DevicesAdded(log: seq<RepoCall>): seq<Device>
  {
    Select(log, AddedDevice)
  }

  function UpdatedDevice(c: RepoCall): Option<Device>
  {
    if c.DeviceUpdate? then Some(c.device) else None
  }

  function DevicesUpdated(log: seq<RepoCall>): seq<Device>
  {
    Select(log, UpdatedDevice)
  }

  function AddedToken(c: RepoCall): Option<Token>
  {
    if c.TokenAdd? then Some(c.token) else None
  }

  function TokensAdded(log: seq<RepoCall>): seq<Token>
  {
    Select(log, AddedToken)
  }

  function UpdatedToken(c: RepoCall): Option<Token>
  {
    if c.TokenUpdate? then Some(c.token) else None
  }

  function TokensUpdated(log: seq<RepoCall>): seq<Token>
  {
    Select(log, UpdatedToken)
  }

  /** No repository was changed. */
  predicate NoWrites(log: seq<RepoCall>)
  {
    forall i :: 0 <= i < |log| ==> !log[i].IsWrite()
  }
}
