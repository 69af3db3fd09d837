/** What each `Handle` overload of UserCommandHandler does, as a function from
    the repositories' contents before the command to those after it, with the
    command's result and its trace (notifications, repository calls, events).

    The answers of the repositories' lookups (`GetByEmail`,
    `GetByUserNameAndPassword`, `GetByPerson`, `GetBySerialKey`,
    `GetByIdentification`) and of `IUnitOfWork.Commit` come from code outside
    the handler, so they are parameters: a lookup answer is the id of the
    record returned, or `None` for null. */
module UserFlows {
  import opened Primitives
  import opened Entities
  import opened Commands
  import opened Effects

  /** The repositories' contents, by id, and the GUID generator: every GUID it
      has handed out is below `nextGuid`. */
  datatype Store = Store(
    persons: map<Guid, Person>,
    devices: map<Guid, Device>,
    tokens: map<Guid, Token>,
    nextGuid: Guid)
  {
    ghost predicate Valid()
    {
      0 < nextGuid && PersonsIssued() && DevicesIssued() && TokensIssued() && TokensHeld()
    }

    /** Every person was issued by the generator, is stored under its own id,
        and has a serial key no new GUID's text can repeat. */
    ghost predicate PersonsIssued()
    {
      forall id :: id in persons ==>
        0 < id < nextGuid && persons[id].personId == id
        && 0 < |persons[id].serialKey| && IssuedBefore(persons[id].serialKey, nextGuid)
    }

    /** Every device was issued by the generator, is stored under its own id and belongs to a stored person. */
    ghost predicate DevicesIssued()
    {
      forall id :: id in devices ==> 0 < id < nextGuid && devices[id].deviceId == id && devices[id].person in persons
    }

    /** Every token and its user token were issued by the generator, and the token is stored under its own id. */
    ghost predicate TokensIssued()
    {
      forall id :: id in tokens ==> 0 < id < nextGuid && tokens[id].tokenId == id && tokens[id].userToken < nextGuid
    }

    /** A person's current token is stored. */
    ghost predicate TokensHeld()
    {
      forall id :: id in persons && persons[id].token.Some? ==> persons[id].token.value in tokens
    }
  }

  /** The result of one command and what it left behind. */
  datatype Outcome<R> = Outcome(store: Store, result: R, trace: Trace)

  /** One stage of a command: the new contents and the calls it made. */
  datatype Step = Step(store: Store, calls: seq<RepoCall>)

  /** A lookup answer the repository can give: null, or a record it holds. */
  predicate Answers<T>(repository: map<Guid, T>, answer: Option<Guid>)
  {
    answer.Some? ==> answer.value in repository
  }

  // ---------------------------------------------------------------------------
  // Register

  /** The local tier of `Handle(UserRegisterCommand)`: both predicates run (`&`). */
  function RegisterChecks(c: RegisterCommand): seq<Notification>
  {
    Check(HasValidEmail(c.email), EmailProper) + Check(Present(c.password), UserRegisterPasswordProper)
  }

  /** `t` is `s` plus one new person `id`, built from the command, and nothing
      else; its serial key is new: no stored person holds it. */
  ghost predicate AddsPerson(s: Store, t: Store, c: RegisterCommand, id: Guid)
  {
    id != EmptyGuid && id !in s.persons && id in t.persons
    && t.persons == s.persons[id := t.persons[id]]
    && t.devices == s.devices && t.tokens == s.tokens
    && var p := t.persons[id];
       p.personId == id && p.name == c.name && p.documentNumber == c.documentNumber
       && p.email == c.email && p.password == c.password
       && p.phoneNumber == "" && p.status == PersonUserStatus.Active && p.token == None
       && 0 < |p.serialKey| && (forall q :: q in s.persons ==> p.serialKey != s.persons[q].serialKey)
  }

  function Register(s: Store, c: RegisterCommand, byEmail: Option<Guid>): (o: Outcome<RegisterResult>)
    ensures o.store.devices == s.devices && o.store.tokens == s.tokens && o.trace.events == []
    ensures o.store.persons.Keys >= s.persons.Keys && |o.trace.calls| <= 2
  {
    if !(HasValidEmail(c.email) && Present(c.password)) then
      Outcome(s, RegisterResult(EmptyGuid), Trace(RegisterChecks(c), [], []))
    else if byEmail.Some? then
      Outcome(s, RegisterResult(EmptyGuid), Trace([UserRegisterEmailAlreadyTaken], [PersonGetByEmail(c.email)], []))
    else
      var id, keyGuid := s.nextGuid, s.nextGuid + 1;
      var person := NewPerson(id, c.name, c.documentNumber, c.email, c.password, GuidText(keyGuid));
      var t := Store(s.persons[id := person], s.devices, s.tokens, s.nextGuid + 2);
      Outcome(t, RegisterResult(person.personId), Trace([], [PersonGetByEmail(c.email), PersonAdd(person)], []))
  }

  lemma RegisterContract(s: Store, c: RegisterCommand, byEmail: Option<Guid>)
    requires s.Valid()
    ensures var o := Register(s, c, byEmail);
      (s.nextGuid <= o.store.nextGuid && o.trace.events == [])
      && (o.result.userId != EmptyGuid <==> HasValidEmail(c.email) && Present(c.password) && byEmail.None?)
      && (!(HasValidEmail(c.email) && Present(c.password)) ==> o.trace.notes == RegisterChecks(c) && o.trace.calls == [])
      && (HasValidEmail(c.email) && Present(c.password) && byEmail.Some? ==>
         o.trace.notes == [UserRegisterEmailAlreadyTaken] && o.trace.calls == [PersonGetByEmail(c.email)])
      && (o.result.userId == EmptyGuid ==> o.store == s && NoWrites(o.trace.calls))
      && (o.result.userId != EmptyGuid ==>
         AddsPerson(s, o.store, c, o.result.userId) && o.trace.notes == []
         && o.trace.calls == [PersonGetByEmail(c.email), PersonAdd(o.store.persons[o.result.userId])])
  {
    var o := Register(s, c, byEmail);
    if o.result.userId != EmptyGuid {
      forall q | q in s.persons
        ensures GuidText(s.nextGuid + 1) != s.persons[q].serialKey
      {
        IssuedBeforeDiffers(s.persons[q].serialKey, s.nextGuid, s.nextGuid + 1);
      }
    }
  }

  // ---------------------------------------------------------------------------
  // Authenticate

  /** The field checks of `Handle(UserAuthenticateCommand)`: both run (`&`). */
  function AuthenticateChecks(c: AuthenticateCommand): seq<Notification>
  {
    Check(Present(c.user), UserAuthenticateUserRequired) + Check(Present(c.password), UserAuthenticatePasswordRequired)
  }

  /** Every guard of authentication passes: a command with user and password,
      credentials that find a person, and that person active. */
  predicate SignInAllowed(s: Store, command: Option<AuthenticateCommand>, found: Option<Guid>)
  {
    command.Some? && Present(command.value.user) && Present(command.value.password)
    && found.Some? && found.value in s.persons && s.persons[found.value].status == PersonUserStatus.Active
  }

  /** Device reconciliation for person `owner`, whose current device (by the
      device repository's `GetByPerson`) is `current`: none, one with the
      command's identification, or one with another identification. */
  function ReconcileDevice(s: Store, owner: Guid, c: AuthenticateCommand, current: Option<Guid>): (r: Step)
    requires Answers(s.devices, current)
    ensures r.store.persons == s.persons && r.store.tokens == s.tokens && s.nextGuid <= r.store.nextGuid
    ensures current.Some? && s.devices[current.value].identification == c.identification ==> r == Step(s, [])
  {
    if current.None? then
      var device := NewDevice(s.nextGuid, c.identification, c.deviceOs, owner);
      Step(s.(devices := s.devices[device.deviceId := device], nextGuid := s.nextGuid + 1), [DeviceAdd(device)])
    else if s.devices[current.value].identification != c.identification then
      var retired := s.devices[current.value].Retire();
      var device := NewDevice(s.nextGuid, c.identification, c.deviceOs, owner);
      var t := s.(devices := s.devices[current.value := retired][device.deviceId := device], nextGuid := s.nextGuid + 1);
      Step(t, [DeviceUpdate(retired), DeviceAdd(device)])
    else
      Step(s, [])
  }

  /** Token reconciliation: retire `person`'s current token, if any, issue a
      new one, make it current and store `person` (which already carries its
      new serial key). */
  function ReconcileToken(s: Store, person: Person, deviceOs: int): (r: Step)
    requires person.token.Some? ==> person.token.value in s.tokens
    ensures r.store.devices == s.devices && s.nextGuid < r.store.nextGuid
    ensures person.personId in r.store.persons && r.store.persons[person.personId].token.Some?
    ensures r.store.persons[person.personId].token.value in r.store.tokens
  {
    var retire :=
      if person.token.None? then Step(s, [])
      else
        var stale := s.tokens[person.token.value].Deactivate();
        Step(s.(tokens := s.tokens[person.token.value := stale]), [TokenUpdate(stale)]);
    var u := retire.store;
    var token := NewToken(u.nextGuid, u.nextGuid + 1, deviceOs);
    var updated := person.SetToken(token.tokenId);
    var t := Store(u.persons[updated.personId := updated], u.devices, u.tokens[token.tokenId := token], u.nextGuid + 2);
    Step(t, retire.calls + [TokenAdd(token), PersonUpdate(updated)])
  }

  /** The result of a successful authentication: the person's fields, and
      the token's user token as the serial key. */
  function AuthenticatedAs(p: Person, t: Token): AuthenticateResult
  {
    Authenticated(p.name, GuidText(t.userToken), "", "", p.documentNumber, p.email, p.admin, p.visitor, p.resident)
  }

  /** Everything after the guards: rotate the serial key, reconcile the
      device, reconcile the token, and build the result from the stored person. */

  function SignIn(s: Store, c: AuthenticateCommand, id: Guid, current: Option<Guid>): (o: Outcome<AuthenticateResult>)
    requires id in s.persons && Answers(s.devices, current)
    requires s.persons[id].token.Some? ==> s.persons[id].token.value in s.tokens
    ensures o.result.Authenticated? && o.trace.notes == [] && o.trace.events == []
  {
    var person := s.persons[id].SetSerialKey(GuidText(s.nextGuid));
    var device := ReconcileDevice(s.(nextGuid := s.nextGuid + 1), id, c, current);
    var token := ReconcileToken(device.store, person, c.deviceOs);
    var stored := token.store.persons[person.personId];
    Outcome(
      token.store,
      AuthenticatedAs(stored, token.store.tokens[stored.token.value]),
      Trace([], [DeviceGetByPerson(id)] + device.calls + token.calls, []))
  }

  function Authenticate(s: Store, command: Option<AuthenticateCommand>, found: Option<Guid>, current: Option<Guid>): (o: Outcome<AuthenticateResult>)
    requires s.TokensHeld() && Answers(s.persons, found) && Answers(s.devices, current)
  {
    if command.None? then
      Outcome(s, EmptyAuthentication, Trace([CommandRequired], [], []))
    else
      var c := command.value;
      if !(Present(c.user) && Present(c.password)) then
        Outcome(s, EmptyAuthentication, Trace(AuthenticateChecks(c), [], []))
      else
        CheckCredentials(s, c, found, current)
  }

  lemma AuthenticateContract(s: Store, command: Option<AuthenticateCommand>, found: Option<Guid>, current: Option<Guid>)
    requires s.TokensHeld() && Answers(s.persons, found) && Answers(s.devices, current)
    ensures var o := Authenticate(s, command, found, current);
      (s.nextGuid <= o.store.nextGuid && o.trace.events == [])
      && (o.result.Authenticated? <==> SignInAllowed(s, command, found))
      && (command.None? ==> o.trace.notes == [CommandRequired] && o.trace.calls == [])
      && (command.Some? && !(Present(command.value.user) && Present(command.value.password)) ==>
         o.trace.notes == AuthenticateChecks(command.value) && o.trace.calls == [])
      && (command.Some? && Present(command.value.user) && Present(command.value.password) ==>
         |o.trace.calls| > 0 && o.trace.calls[0] == PersonGetByUserNameAndPassword(command.value.user, command.value.password))
      && (command.Some? && Present(command.value.user) && Present(command.value.password) && found.None? ==>
         o.trace.notes == [UserAuthenticateLoginFailed])
      && (command.Some? && Present(command.value.user) && Present(command.value.password)
          && found.Some? && s.persons[found.value].status != PersonUserStatus.Active ==>
         o.trace.notes == [UserAuthenticateUserIsInactive])
      && (command.Some? && Present(command.value.user) && Present(command.value.password) && !o.result.Authenticated? ==>
         o.trace.calls == [PersonGetByUserNameAndPassword(command.value.user, command.value.password)])
      && (!o.result.Authenticated? ==> o.store == s && NoWrites(o.trace.calls))
      && (o.result.Authenticated? ==> o.trace.notes == [])
  {
  }

  /** The part of authentication after the field checks: look the person up
      by user and password (`found` is the answer), check it is found and
      active, and sign it in. */
  function CheckCredentials(s: Store, c: AuthenticateCommand, found: Option<Guid>, current: Option<Guid>): Outcome<AuthenticateResult>
    requires s.TokensHeld() && Answers(s.persons, found) && Answers(s.devices, current)
  {
    var lookup := [PersonGetByUserNameAndPassword(c.user, c.password)];
    if found.None? then
      Outcome(s, EmptyAuthentication, Trace([UserAuthenticateLoginFailed], lookup, []))
    else if s.persons[found.value].status != PersonUserStatus.Active then
      Outcome(s, EmptyAuthentication, Trace([UserAuthenticateUserIsInactive], lookup, []))
    else
      var signedIn := SignIn(s, c, found.value, current);
      Outcome(signedIn.store, signedIn.result, Trace([], lookup, []).Then(signedIn.trace))
  }

  // ---------------------------------------------------------------------------
  // ForgotPassword

  /** The reset happens: a well-formed email that finds a person. */
  predicate ResetApplies(c: ForgotPasswordCommand, byEmail: Option<Guid>)
  {
    HasValidEmail(c.email) && byEmail.Some?
  }

  function ForgotPassword(s: Store, c: ForgotPasswordCommand, byEmail: Option<Guid>, committed: bool): (o: Outcome<SerialKeyResult>)
    requires Answers(s.persons, byEmail)
  {
    if !HasValidEmail(c.email) then
      Outcome(s, SerialKeyResult(""), Trace([EmailProper], [], []))
    else if byEmail.None? then
      Outcome(s, SerialKeyResult(""), Trace([], [PersonGetByEmail(c.email)], []))
    else
      var person := s.persons[byEmail.value].SetPassword(TemporaryPassword(s.nextGuid));
      var t := s.(persons := s.persons[person.personId := person], nextGuid := s.nextGuid + 1);
      var calls := [PersonGetByEmail(c.email), PersonUpdate(person), UnitOfWorkCommit];
      if committed then
        Outcome(t, SerialKeyResult(person.serialKey), Trace([], calls, [UserForgotPasswordRequested(person)]))
      else
        Outcome(t, SerialKeyResult(""), Trace([], calls, []))
  }

  lemma ForgotPasswordContract(s: Store, c: ForgotPasswordCommand, byEmail: Option<Guid>, committed: bool)
    requires s.PersonsIssued() && Answers(s.persons, byEmail)
    ensures var o := ForgotPassword(s, c, byEmail, committed);
      (s.nextGuid <= o.store.nextGuid)
      && (o.result.serialKey != "" <==> ResetApplies(c, byEmail) && committed)
      && (|o.trace.events| == (if ResetApplies(c, byEmail) && committed then 1 else 0))
      && (ResetApplies(c, byEmail) ==> byEmail.value in o.store.persons)
      && (o.trace.events != [] ==>
         o.trace.events == [UserForgotPasswordRequested(o.store.persons[byEmail.value])]
         && o.result.serialKey == s.persons[byEmail.value].serialKey)
      && (!HasValidEmail(c.email) ==> o.trace.notes == [EmailProper] && o.trace.calls == [])
      && (HasValidEmail(c.email) ==> o.trace.notes == [] && |o.trace.calls| > 0 && o.trace.calls[0] == PersonGetByEmail(c.email))
      && (!ResetApplies(c, byEmail) ==> o.store == s && NoWrites(o.trace.calls))
      && (ResetApplies(c, byEmail) ==>
         var id := byEmail.value;
         var reset := o.store.persons[id];
         o.store.persons == s.persons[id := reset] && reset == s.persons[id].(password := reset.password)
         && 0 < |reset.password| <= 7
         && o.store.devices == s.devices && o.store.tokens == s.tokens
         && PersonsUpdated(o.trace.calls) == [reset] && o.trace.calls[|o.trace.calls| - 1] == UnitOfWorkCommit)
  {
    if ResetApplies(c, byEmail) {
      var o := ForgotPassword(s, c, byEmail, committed);
      SelectAppend([PersonGetByEmail(c.email)], o.trace.calls[1..], UpdatedPerson);
      assert o.trace.calls == [PersonGetByEmail(c.email)] + o.trace.calls[1..];
    }
  }

  // ---------------------------------------------------------------------------
  // ChangePassword

  /** The local tier of `Handle(UserChangePasswordCommand)`: both predicates run (`&`). */
  function ChangePasswordChecks(c: ChangePasswordCommand): seq<Notification>
  {
    Check(Present(c.identification), IdentificationRequired) + Check(Present(c.serialKey), SerialKeyRequired)
  }

  /** The second tier: person by serial key, device by identification, and the
      device belongs to that person, in that order and stopping at the first
      failure (`&&`). */
  function OwnershipChecks(s: Store, bySerialKey: Option<Guid>, byIdentification: Option<Guid>): (pushed: seq<Notification>)
    requires Answers(s.devices, byIdentification)
    ensures |pushed| <= 1
    ensures pushed == [] <==>
      bySerialKey.Some? && byIdentification.Some? && s.devices[byIdentification.value].person == bySerialKey.value
  {
    if bySerialKey.None? then [PersonNotFound]
    else if byIdentification.None? then [DeviceNotFound]
    else Check(s.devices[byIdentification.value].person == bySerialKey.value, DeviceNotOfPerson)
  }

  /** The third tier: the old password finds an active person (`&&`). */
  function ReauthenticationChecks(s: Store, reauthenticated: Option<Guid>): (pushed: seq<Notification>)
    requires Answers(s.persons, reauthenticated)
    ensures |pushed| <= 1
    ensures pushed == [] <==> reauthenticated.Some? && s.persons[reauthenticated.value].status == PersonUserStatus.Active
  {
    if reauthenticated.None? then [UserAuthenticateLoginFailed]
    else Check(s.persons[reauthenticated.value].status == PersonUserStatus.Active, UserAuthenticateUserIsInactive)
  }

  function ChangePassword(s: Store, c: ChangePasswordCommand, bySerialKey: Option<Guid>, byIdentification: Option<Guid>, reauthenticated: Option<Guid>): (o: Outcome<SerialKeyResult>)
    requires Answers(s.persons, bySerialKey) && Answers(s.devices, byIdentification) && Answers(s.persons, reauthenticated)
    ensures o.store == s && o.result.serialKey == "" && o.trace.events == [] && |o.trace.calls| <= 3
  {
    if !(Present(c.identification) && Present(c.serialKey)) then
      Outcome(s, SerialKeyResult(""), Trace(ChangePasswordChecks(c), [], []))
    else
      var lookups := [PersonGetBySerialKey(c.serialKey), DeviceGetByIdentification(c.identification)];
      var ownership := OwnershipChecks(s, bySerialKey, byIdentification);
      if ownership != [] then
        Outcome(s, SerialKeyResult(""), Trace(ownership, lookups, []))
      else
        var reauth := [PersonGetByUserNameAndPassword(s.persons[bySerialKey.value].email, c.oldPassword)];
        Outcome(s, SerialKeyResult(""), Trace(ReauthenticationChecks(s, reauthenticated), lookups + reauth, []))
  }

  lemma ChangePasswordContract(s: Store, c: ChangePasswordCommand, bySerialKey: Option<Guid>, byIdentification: Option<Guid>, reauthenticated: Option<Guid>)
    requires Answers(s.persons, bySerialKey) && Answers(s.devices, byIdentification) && Answers(s.persons, reauthenticated)
    ensures var o := ChangePassword(s, c, bySerialKey, byIdentification, reauthenticated);
      (o.result.serialKey == "" && o.store == s && NoWrites(o.trace.calls) && o.trace.events == [])
      && (o.trace.notes == [] <==>
         Present(c.identification) && Present(c.serialKey)
         && bySerialKey.Some? && byIdentification.Some? && s.devices[byIdentification.value].person == bySerialKey.value
         && reauthenticated.Some? && s.persons[reauthenticated.value].status == PersonUserStatus.Active)
      && (o.trace.calls == [] <==> !(Present(c.identification) && Present(c.serialKey)))
      && (!(Present(c.identification) && Present(c.serialKey)) ==> o.trace.notes == ChangePasswordChecks(c))
      && (Present(c.identification) && Present(c.serialKey) ==>
         o.trace.calls[..2] == [PersonGetBySerialKey(c.serialKey), DeviceGetByIdentification(c.identification)]
         && (|o.trace.calls| == 3 <==> OwnershipChecks(s, bySerialKey, byIdentification) == []))
      && (Present(c.identification) && Present(c.serialKey) && OwnershipChecks(s, bySerialKey, byIdentification) == [] ==>
         o.trace.calls[2] == PersonGetByUserNameAndPassword(s.persons[bySerialKey.value].email, c.oldPassword))
      && (|o.trace.notes| <= 2)
  {
  }
}
