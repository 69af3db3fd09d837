/** UserCommandHandler as the object it is: the repositories it writes to and
    the GUID generator are its state, and each `Handle` overload is a method
    that changes that state step by step, in the order the handler does,
    pushing notifications, logging repository calls and raising events as it
    goes. Each method is proved to do exactly what the matching function of
    `UserFlows` says, and to keep the store invariant. */
module Handlers {
  import opened Primitives
  import opened Entities
  import opened Commands
  import opened Effects
  import UserFlows
  import SessionProperties

  class UserCommandHandler {
    /** Contents of the person, device and token repositories, by id. */
    var persons: map<Guid, Person>
    var devices: map<Guid, Device>
    var tokens: map<Guid, Token>
    /** The next GUID `Guid.NewGuid()` hands out. */
    var nextGuid: Guid
    /** The domain notifications pushed so far. */
    var notifications: seq<Notification>
    /** The repository and unit-of-work calls made so far. */
    var calls: seq<RepoCall>
    /** The domain events raised so far. */
    var events: seq<DomainEvent>

    function State(): UserFlows.Store
      reads this`persons, this`devices, this`tokens, this`nextGuid
    {
      UserFlows.Store(persons, devices, tokens, nextGuid)
    }

    ghost predicate Valid()
      reads this`persons, this`devices, this`tokens, this`nextGuid
    {
      State().Valid()
    }

    /** A handler over empty repositories. */
    constructor ()
      ensures Valid()
      ensures persons == map[] && devices == map[] && tokens == map[]
      ensures notifications == [] && calls == [] && events == []
    {
      persons, devices, tokens := map[], map[], map[];
      nextGuid := 1;
      notifications, calls, events := [], [], [];
    }

    /** `Guid.NewGuid()`: a GUID never handed out before. */
    method NewGuid() returns (g: Guid)
      modifies this
      ensures g == old(nextGuid) && nextGuid == g + 1
      ensures persons == old(persons) && devices == old(devices) && tokens == old(tokens)
      ensures notifications == old(notifications) && calls == old(calls) && events == old(events)
    {
      g := nextGuid;
      nextGuid := nextGuid + 1;
    }

    /** Evaluates one validation predicate: its message is pushed when it fails. */
    method Notify(holds: bool, message: Notification)
      modifies this
      ensures notifications == old(notifications) + Check(holds, message)
      ensures State() == old(State()) && calls == old(calls) && events == old(events)
    {
      if !holds {
        notifications := notifications + [message];
      }
    }

    /** `Handle(UserRegisterCommand)`. */
    method Register(c: RegisterCommand, byEmail: Option<Guid>) returns (r: RegisterResult)
      requires Valid()
      modifies this
      ensures var o := UserFlows.Register(old(State()), c, byEmail);
        && State() == o.store && o.store.Valid() && r == o.result
        && notifications == old(notifications) + o.trace.notes
        && calls == old(calls) + o.trace.calls && events == old(events) + o.trace.events
      ensures Valid()
    {
      SessionProperties.RegisterKeepsValid(State(), c, byEmail);
      ghost var notes0 := notifications;
      var emailOk, passwordOk := HasValidEmail(c.email), Present(c.password);
      Notify(emailOk, EmailProper);
      Notify(passwordOk, UserRegisterPasswordProper);
      GrewBy(notes0, Check(emailOk, EmailProper), Check(passwordOk, UserRegisterPasswordProper));
      if !(emailOk && passwordOk) {
        return RegisterResult(EmptyGuid);
      }
      calls := calls + [PersonGetByEmail(c.email)];
      if byEmail.Some? {
        notifications := notifications + [UserRegisterEmailAlreadyTaken];
        return RegisterResult(EmptyGuid);
      }
      var id := NewGuid();
      var keyGuid := NewGuid();
      var person := NewPerson(id, c.name, c.documentNumber, c.email, c.password, GuidText(keyGuid));
      persons := persons[id := person];
      calls := calls + [PersonAdd(person)];
      r := RegisterResult(person.personId);
    }

    /** The device part of `Handle(UserAuthenticateCommand)`, for person `owner`
        whose current device is `current`. */
    method ReconcileDevice(owner: Guid, c: AuthenticateCommand, current: Option<Guid>)
      requires UserFlows.Answers(devices, current)
      modifies this
      ensures var r := UserFlows.ReconcileDevice(old(State()), owner, c, current);
        State() == r.store && calls == old(calls) + r.calls
      ensures notifications == old(notifications) && events == old(events)
    {
      if current.None? {
        var id := NewGuid();
        var device := NewDevice(id, c.identification, c.deviceOs, owner);
        devices := devices[id := device];
        calls := calls + [DeviceAdd(device)];
      } else if devices[current.value].identification != c.identification {
        var retired := devices[current.value].Retire();
        devices := devices[current.value := retired];
        calls := calls + [DeviceUpdate(retired)];
        var id := NewGuid();
        var device := NewDevice(id, c.identification, c.deviceOs, owner);
        devices := devices[id := device];
        calls := calls + [DeviceAdd(device)];
      }
    }

    /** The token part of `Handle(UserAuthenticateCommand)`: `person` already
        carries its new serial key. */
    method ReconcileToken(person: Person, deviceOs: int)
      requires person.token.Some? ==> person.token.value in tokens
      modifies this
      ensures var r := UserFlows.ReconcileToken(old(State()), person, deviceOs);
        State() == r.store && calls == old(calls) + r.calls
      ensures notifications == old(notifications) && events == old(events)
    {
      if person.token.Some? {
        var stale := tokens[person.token.value].Deactivate();
        tokens := tokens[person.token.value := stale];
        calls := calls + [TokenUpdate(stale)];
      }
      var tokenId := NewGuid();
      var userToken := NewGuid();
      var token := NewToken(tokenId, userToken, deviceOs);
      tokens := tokens[tokenId := token];
      calls := calls + [TokenAdd(token)];
      var updated := person.SetToken(tokenId);
      persons := persons[updated.personId := updated];
      calls := calls + [PersonUpdate(updated)];
    }

    /** Everything `Handle(UserAuthenticateCommand)` does once the person is
        found and active: rotate the serial key, reconcile device and token,
        and answer from the stored person. */
    method SignIn(c: AuthenticateCommand, id: Guid, current: Option<Guid>) returns (r: AuthenticateResult)
      requires id in persons && UserFlows.Answers(devices, current)
      requires persons[id].token.Some? ==> persons[id].token.value in tokens
      modifies this
      ensures var o := UserFlows.SignIn(old(State()), c, id, current);
        && State() == o.store && r == o.result
        && notifications == old(notifications) && calls == old(calls) + o.trace.calls && events == old(events)
    {
      ghost var s0, calls0 := State(), calls;
      var keyGuid := NewGuid();
      var person := persons[id].SetSerialKey(GuidText(keyGuid));
      calls := calls + [DeviceGetByPerson(id)];
      ghost var s1 := s0.(nextGuid := s0.nextGuid + 1);
      assert State() == s1;
      ghost var device := UserFlows.ReconcileDevice(s1, id, c, current);
      ReconcileDevice(id, c, current);
      assert State() == device.store && calls == calls0 + [DeviceGetByPerson(id)] + device.calls;
      ghost var token := UserFlows.ReconcileToken(device.store, person, c.deviceOs);
      ReconcileToken(person, c.deviceOs);
      assert State() == token.store;
      GrewBy3(calls0, [DeviceGetByPerson(id)], device.calls, token.calls);
      var stored := persons[person.personId];
      r := UserFlows.AuthenticatedAs(stored, tokens[stored.token.value]);
    }

    /** `Handle(UserAuthenticateCommand)`; `command` is `None` for null. */
    method Authenticate(command: Option<AuthenticateCommand>, found: Option<Guid>, current: Option<Guid>) returns (r: AuthenticateResult)
      requires Valid() && UserFlows.Answers(persons, found) && UserFlows.Answers(devices, current)
      modifies this
      ensures var o := UserFlows.Authenticate(old(State()), command, found, current);
        && State() == o.store && o.store.Valid() && r == o.result
        && notifications == old(notifications) + o.trace.notes
        && calls == old(calls) + o.trace.calls && events == old(events) + o.trace.events
      ensures Valid()
    {
      SessionProperties.AuthenticateKeepsValid(State(), command, found, current);
      if command.None? {
        notifications := notifications + [CommandRequired];
        return EmptyAuthentication;
      }
      var c := command.value;
      ghost var notes0 := notifications;
      var userOk, passwordOk := Present(c.user), Present(c.password);
      Notify(userOk, UserAuthenticateUserRequired);
      Notify(passwordOk, UserAuthenticatePasswordRequired);
      GrewBy(notes0, Check(userOk, UserAuthenticateUserRequired), Check(passwordOk, UserAuthenticatePasswordRequired));
      if !(userOk && passwordOk) {
        return EmptyAuthentication;
      }
      r := CheckCredentials(c, found, current);
    }

    /** The rest of `Handle(UserAuthenticateCommand)` once user and password
        are present: look the person up, check it, and sign it in. */
    method CheckCredentials(c: AuthenticateCommand, found: Option<Guid>, current: Option<Guid>) returns (r: AuthenticateResult)
      requires State().TokensHeld() && UserFlows.Answers(persons, found) && UserFlows.Answers(devices, current)
      modifies this
      ensures var o := UserFlows.CheckCredentials(old(State()), c, found, current);
        && State() == o.store && r == o.result
        && notifications == old(notifications) + o.trace.notes
        && calls == old(calls) + o.trace.calls && events == old(events) + o.trace.events
    {
      ghost var s0, calls0 := State(), calls;
      SessionProperties.CheckCredentialsRejects(s0, c, found, current);
      calls := calls + [PersonGetByUserNameAndPassword(c.user, c.password)];
      if found.None? {
        notifications := notifications + [UserAuthenticateLoginFailed];
        return EmptyAuthentication;
      }
      if persons[found.value].status != PersonUserStatus.Active {
        notifications := notifications + [UserAuthenticateUserIsInactive];
        return EmptyAuthentication;
      }
      r := SignIn(c, found.value, current);
      SessionProperties.CheckCredentialsIsSignIn(s0, c, found, current, calls0, calls);
    }

    /** `Handle(UserForgotPasswordCommand)`; `committed` is what `Commit()` answers. */
    method ForgotPassword(c: ForgotPasswordCommand, byEmail: Option<Guid>, committed: bool) returns (r: SerialKeyResult)
      requires Valid() && UserFlows.Answers(persons, byEmail)
      modifies this
      ensures var o := UserFlows.ForgotPassword(old(State()), c, byEmail, committed);
        && State() == o.store && o.store.Valid() && r == o.result
        && notifications == old(notifications) + o.trace.notes
        && calls == old(calls) + o.trace.calls && events == old(events) + o.trace.events
      ensures Valid()
    {
      ghost var s0, calls0 := State(), calls;
      SessionProperties.ForgotPasswordKeepsValid(s0, c, byEmail, committed);
      if !HasValidEmail(c.email) {
        notifications := notifications + [EmailProper];
        return SerialKeyResult("");
      }
      calls := calls + [PersonGetByEmail(c.email)];
      if byEmail.Some? {
        ghost var o := UserFlows.ForgotPassword(s0, c, byEmail, committed);
        var g := NewGuid();
        var person := persons[byEmail.value].SetPassword(TemporaryPassword(g));
        persons := persons[person.personId := person];
        calls := calls + [PersonUpdate(person)];
        calls := calls + [UnitOfWorkCommit];
        assert State() == o.store;
        assert calls == calls0 + o.trace.calls by {
          GrewBy3(calls0, [PersonGetByEmail(c.email)], [PersonUpdate(person)], [UnitOfWorkCommit]);
          assert o.trace.calls == [PersonGetByEmail(c.email)] + [PersonUpdate(person)] + [UnitOfWorkCommit];
        }
        if committed {
          events := events + [UserForgotPasswordRequested(person)];
          return SerialKeyResult(person.serialKey);
        }
      }
      return SerialKeyResult("");
    }

    /** The second tier of `Handle(UserChangePasswordCommand)`: person found
        by serial key, device found by identification, device of that person,
        stopping at the first failure. */
    method CheckOwnership(bySerialKey: Option<Guid>, byIdentification: Option<Guid>) returns (ok: bool)
      requires UserFlows.Answers(devices, byIdentification)
      modifies this
      ensures var pushed := UserFlows.OwnershipChecks(old(State()), bySerialKey, byIdentification);
        notifications == old(notifications) + pushed && ok == (pushed == [])
      ensures State() == old(State()) && calls == old(calls) && events == old(events)
    {
      if bySerialKey.None? {
        notifications := notifications + [PersonNotFound];
        return false;
      }
      if byIdentification.None? {
        notifications := notifications + [DeviceNotFound];
        return false;
      }
      ok := devices[byIdentification.value].person == bySerialKey.value;
      Notify(ok, DeviceNotOfPerson);
    }

    /** The third tier of `Handle(UserChangePasswordCommand)`: the old password
        finds an active person. */
    method CheckReauthentication(reauthenticated: Option<Guid>) returns (ok: bool)
      requires UserFlows.Answers(persons, reauthenticated)
      modifies this
      ensures var pushed := UserFlows.ReauthenticationChecks(old(State()), reauthenticated);
        notifications == old(notifications) + pushed && ok == (pushed == [])
      ensures State() == old(State()) && calls == old(calls) && events == old(events)
    {
      if reauthenticated.None? {
        notifications := notifications + [UserAuthenticateLoginFailed];
        return false;
      }
      ok := persons[reauthenticated.value].status == PersonUserStatus.Active;
      Notify(ok, UserAuthenticateUserIsInactive);
    }

    /** `Handle(UserChangePasswordCommand)`: the three tiers of checks, and
        nothing after them. */
    method ChangePassword(c: ChangePasswordCommand, bySerialKey: Option<Guid>, byIdentification: Option<Guid>, reauthenticated: Option<Guid>)
      returns (r: SerialKeyResult)
      requires Valid()
      requires UserFlows.Answers(persons, bySerialKey) && UserFlows.Answers(devices, byIdentification)
      requires UserFlows.Answers(persons, reauthenticated)
      modifies this
      ensures var o := UserFlows.ChangePassword(old(State()), c, bySerialKey, byIdentification, reauthenticated);
        && State() == o.store && r == o.result
        && notifications == old(notifications) + o.trace.notes
        && calls == old(calls) + o.trace.calls && events == old(events) + o.trace.events
    {
      r := SerialKeyResult("");
      ghost var notes0, calls0 := notifications, calls;
      var identificationOk, serialKeyOk := Present(c.identification), Present(c.serialKey);
      Notify(identificationOk, IdentificationRequired);
      Notify(serialKeyOk, SerialKeyRequired);
      GrewBy(notes0, Check(identificationOk, IdentificationRequired), Check(serialKeyOk, SerialKeyRequired));
      if identificationOk && serialKeyOk {
        var lookups := [PersonGetBySerialKey(c.serialKey), DeviceGetByIdentification(c.identification)];
        calls := calls + lookups;
        var owned := CheckOwnership(bySerialKey, byIdentification);
        if owned {
          var reauth := [PersonGetByUserNameAndPassword(persons[bySerialKey.value].email, c.oldPassword)];
          calls := calls + reauth;
          GrewBy(calls0, lookups, reauth);
          var authorized := CheckReauthentication(reauthenticated);
        }
      }
    }
  }
}
