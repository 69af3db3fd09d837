/** Properties of the user flows: the store invariant each command keeps,
    what authentication does to devices, tokens and the serial key, the
    one-current-device and current-token invariants, and what repeated
    commands do. */
module SessionProperties {
  import opened Primitives
  import opened Entities
  import opened Commands
  import opened Effects
  import opened UserFlows

  // ---------------------------------------------------------------------------
  // The store invariant

  lemma IssuedBeforeGrows(key: string, a: Guid, b: Guid)
    requires IssuedBefore(key, a) && a <= b
    ensures IssuedBefore(key, b)
  {
  }

  /** Advancing the GUID generator keeps the store valid. */
  lemma {:induction false} AdvanceKeepsValid(s: Store, next: Guid)
    requires s.Valid() && s.nextGuid <= next
    ensures s.(nextGuid := next).Valid()
  {
    forall id | id in s.persons
      ensures IssuedBefore(s.persons[id].serialKey, next)
    {
      IssuedBeforeGrows(s.persons[id].serialKey, s.nextGuid, next);
    }
  }

  lemma RegisterKeepsValid(s: Store, c: RegisterCommand, byEmail: Option<Guid>)
    requires s.Valid()
    ensures Register(s, c, byEmail).store.Valid()
  {
    var o := Register(s, c, byEmail);
    if o.result.userId != EmptyGuid {
      AdvanceKeepsValid(s, s.nextGuid + 2);
      FreshTextIssuedBefore(s.nextGuid + 1, s.nextGuid + 2);
    }
  }

  lemma ReconcileDeviceKeepsValid(s: Store, owner: Guid, c: AuthenticateCommand, current: Option<Guid>)
    requires s.Valid() && owner in s.persons && Answers(s.devices, current)
    ensures ReconcileDevice(s, owner, c, current).store.Valid()
  {
    var r := ReconcileDevice(s, owner, c, current);
    AdvanceKeepsValid(s, r.store.nextGuid);
  }

  lemma ReconcileTokenKeepsValid(s: Store, person: Person, deviceOs: int)
    requires s.Valid() && person.personId in s.persons
    requires person.token.Some? ==> person.token.value in s.tokens
    requires 0 < |person.serialKey| && IssuedBefore(person.serialKey, s.nextGuid)
    ensures ReconcileToken(s, person, deviceOs).store.Valid()
  {
    var t := ReconcileToken(s, person, deviceOs).store;
    AdvanceKeepsValid(s, s.nextGuid + 2);
    IssuedBeforeGrows(person.serialKey, s.nextGuid, s.nextGuid + 2);
    assert t.PersonsIssued();
    assert t.DevicesIssued();
    assert t.TokensIssued();
    assert t.TokensHeld();
  }

  lemma SignInKeepsValid(s: Store, c: AuthenticateCommand, id: Guid, current: Option<Guid>)
    requires s.Valid() && id in s.persons && Answers(s.devices, current)
    ensures SignIn(s, c, id, current).store.Valid()
  {
    var person := s.persons[id].SetSerialKey(GuidText(s.nextGuid));
    var s1 := s.(nextGuid := s.nextGuid + 1);
    AdvanceKeepsValid(s, s.nextGuid + 1);
    ReconcileDeviceKeepsValid(s1, id, c, current);
    var device := ReconcileDevice(s1, id, c, current);
    FreshTextIssuedBefore(s.nextGuid, device.store.nextGuid);
    ReconcileTokenKeepsValid(device.store, person, c.deviceOs);
  }

  lemma AuthenticateKeepsValid(s: Store, command: Option<AuthenticateCommand>, found: Option<Guid>, current: Option<Guid>)
    requires s.Valid() && Answers(s.persons, found) && Answers(s.devices, current)
    ensures Authenticate(s, command, found, current).store.Valid()
  {
    if SignInAllowed(s, command, found) {
      SignInKeepsValid(s, command.value, found.value, current);
    }
  }

  lemma ForgotPasswordKeepsValid(s: Store, c: ForgotPasswordCommand, byEmail: Option<Guid>, committed: bool)
    requires s.Valid() && Answers(s.persons, byEmail)
    ensures ForgotPassword(s, c, byEmail, committed).store.Valid()
  {
    if ResetApplies(c, byEmail) {
      AdvanceKeepsValid(s, s.nextGuid + 1);
    }
  }

  // ---------------------------------------------------------------------------
  // The call log of a successful authentication

  /** A device authentication added: new, stored, bound to `owner`, carrying
      the command's identification, enabled and active. */
  ghost predicate IsNewCurrentDevice(s: Store, t: Store, d: Device, owner: Guid, c: AuthenticateCommand)
  {
    d.deviceId !in s.devices && d.deviceId in t.devices && t.devices[d.deviceId] == d
    && d.person == owner && d.identification == c.identification && d.IsCurrent()
  }

  /** Device reconciliation writes only to the device repository. */
  lemma ReconcileDeviceOnlyDevices(s: Store, owner: Guid, c: AuthenticateCommand, current: Option<Guid>)
    requires Answers(s.devices, current)
    ensures var r := ReconcileDevice(s, owner, c, current);
      PersonsAdded(r.calls) == [] && PersonsUpdated(r.calls) == [] && TokensAdded(r.calls) == [] && TokensUpdated(r.calls) == []
  {
    var r := ReconcileDevice(s, owner, c, current);
    if current.Some? && s.devices[current.value].identification != c.identification {
      var retired := s.devices[current.value].Retire();
      var device := NewDevice(s.nextGuid, c.identification, c.deviceOs, owner);
      assert r.calls == [DeviceUpdate(retired)] + [DeviceAdd(device)];
      SelectAppend([DeviceUpdate(retired)], [DeviceAdd(device)], AddedPerson);
      SelectAppend([DeviceUpdate(retired)], [DeviceAdd(device)], UpdatedPerson);
      SelectAppend([DeviceUpdate(retired)], [DeviceAdd(device)], AddedToken);
      SelectAppend([DeviceUpdate(retired)], [DeviceAdd(device)], UpdatedToken);
    }
  }

  /** The calls of device reconciliation, one case at a time. */
  lemma ReconcileDeviceLog(s: Store, owner: Guid, c: AuthenticateCommand, current: Option<Guid>)
    requires s.DevicesIssued() && Answers(s.devices, current)
    ensures var r := ReconcileDevice(s, owner, c, current);
      && (forall id :: id in s.devices && Some(id) != current ==> id in r.store.devices && r.store.devices[id] == s.devices[id])
      && (current.None? ==>
            DevicesUpdated(r.calls) == [] && |DevicesAdded(r.calls)| == 1
            && IsNewCurrentDevice(s, r.store, DevicesAdded(r.calls)[0], owner, c))
      && (current.Some? && s.devices[current.value].identification == c.identification ==>
            DevicesAdded(r.calls) == [] && DevicesUpdated(r.calls) == [] && r.store.devices == s.devices)
      && (current.Some? && s.devices[current.value].identification != c.identification ==>
            DevicesUpdated(r.calls) == [s.devices[current.value].Retire()]
            && current.value in r.store.devices && r.store.devices[current.value] == s.devices[current.value].Retire()
            && |DevicesAdded(r.calls)| == 1
            && IsNewCurrentDevice(s, r.store, DevicesAdded(r.calls)[0], owner, c))
  {
    var r := ReconcileDevice(s, owner, c, current);
    var device := NewDevice(s.nextGuid, c.identification, c.deviceOs, owner);
    if current.None? {
      assert r.calls == [DeviceAdd(device)];
    } else if s.devices[current.value].identification != c.identification {
      var retired := s.devices[current.value].Retire();
      assert r.calls == [DeviceUpdate(retired)] + [DeviceAdd(device)];
      SelectAppend([DeviceUpdate(retired)], [DeviceAdd(device)], AddedDevice);
      SelectAppend([DeviceUpdate(retired)], [DeviceAdd(device)], UpdatedDevice);
    }
  }

  /** The calls of token reconciliation. */
  lemma ReconcileTokenLog(s: Store, person: Person, deviceOs: int)
    requires person.token.Some? ==> person.token.value in s.tokens
    ensures var r := ReconcileToken(s, person, deviceOs);
      && PersonsAdded(r.calls) == [] && DevicesAdded(r.calls) == [] && DevicesUpdated(r.calls) == []
      && TokensAdded(r.calls) == [NewToken(s.nextGuid, s.nextGuid + 1, deviceOs)]
      && PersonsUpdated(r.calls) == [person.SetToken(s.nextGuid)]
      && (person.token.None? ==> TokensUpdated(r.calls) == [])
      && (person.token.Some? ==> TokensUpdated(r.calls) == [s.tokens[person.token.value].Deactivate()])
  {
    var r := ReconcileToken(s, person, deviceOs);
    var tail := [TokenAdd(NewToken(s.nextGuid, s.nextGuid + 1, deviceOs)), PersonUpdate(person.SetToken(s.nextGuid))];
    var head := if person.token.None? then [] else [TokenUpdate(s.tokens[person.token.value].Deactivate())];
    assert r.calls == head + tail;
    SelectAppend(head, tail, AddedPerson);
    SelectAppend(head, tail, UpdatedPerson);
    SelectAppend(head, tail, AddedDevice);
    SelectAppend(head, tail, UpdatedDevice);
    SelectAppend(head, tail, AddedToken);
    SelectAppend(head, tail, UpdatedToken);
  }

  /** A successful authentication is the credential lookup followed by `SignIn`. */
  lemma AuthenticateIsSignIn(s: Store, command: Option<AuthenticateCommand>, found: Option<Guid>, current: Option<Guid>)
    requires s.Valid() && Answers(s.persons, found) && Answers(s.devices, current)
    requires SignInAllowed(s, command, found)
    ensures var o, signedIn := Authenticate(s, command, found, current), SignIn(s, command.value, found.value, current);
      o.store == signedIn.store && o.result == signedIn.result
      && o.trace.calls == [PersonGetByUserNameAndPassword(command.value.user, command.value.password)] + signedIn.trace.calls
  {
  }

  /** Credentials that find nobody, or an inactive person, stop authentication after the lookup. */
  lemma CheckCredentialsRejects(s: Store, c: AuthenticateCommand, found: Option<Guid>, current: Option<Guid>)
    requires s.TokensHeld() && Answers(s.persons, found) && Answers(s.devices, current)
    ensures var lookup := [PersonGetByUserNameAndPassword(c.user, c.password)];
      && (found.None? ==>
            CheckCredentials(s, c, found, current) == Outcome(s, EmptyAuthentication, Trace([UserAuthenticateLoginFailed], lookup, [])))
      && (found.Some? && s.persons[found.value].status != PersonUserStatus.Active ==>
            CheckCredentials(s, c, found, current) == Outcome(s, EmptyAuthentication, Trace([UserAuthenticateUserIsInactive], lookup, [])))
  {
  }

  /** Past the credential checks, authentication is the lookup followed by `SignIn`. */
  lemma CheckCredentialsSignsIn(s: Store, c: AuthenticateCommand, found: Option<Guid>, current: Option<Guid>)
    requires s.TokensHeld() && Answers(s.persons, found) && Answers(s.devices, current)
    requires found.Some? && s.persons[found.value].status == PersonUserStatus.Active
    ensures var signedIn := SignIn(s, c, found.value, current);
      CheckCredentials(s, c, found, current)
        == Outcome(signedIn.store, signedIn.result,
                   Trace([], [PersonGetByUserNameAndPassword(c.user, c.password)] + signedIn.trace.calls, []))
  {
    var signedIn := SignIn(s, c, found.value, current);
    assert signedIn.trace.notes == [] && signedIn.trace.events == [];
  }

  /** The same, for a log that grew by the lookup and then by `SignIn`'s calls:
      it grew by the calls of the whole check. */
  lemma CheckCredentialsIsSignIn(s: Store, c: AuthenticateCommand, found: Option<Guid>, current: Option<Guid>,
                                 before: seq<RepoCall>, after: seq<RepoCall>)
    requires s.TokensHeld() && Answers(s.persons, found) && Answers(s.devices, current)
    requires found.Some? && s.persons[found.value].status == PersonUserStatus.Active
    requires after == before + [PersonGetByUserNameAndPassword(c.user, c.password)] + SignIn(s, c, found.value, current).trace.calls
    ensures var o, signedIn := CheckCredentials(s, c, found, current), SignIn(s, c, found.value, current);
      && o.store == signedIn.store && o.result == signedIn.result
      && o.trace.notes == [] && o.trace.events == [] && after == before + o.trace.calls
  {
    var signedIn := SignIn(s, c, found.value, current);
    CheckCredentialsSignsIn(s, c, found, current);
    assert after == before + ([PersonGetByUserNameAndPassword(c.user, c.password)] + signedIn.trace.calls);
  }

  /** `SignIn`'s calls: the device lookup, then the device step's, then the token step's. */
  lemma SignInLog(s: Store, c: AuthenticateCommand, id: Guid, current: Option<Guid>)
    requires id in s.persons && Answers(s.devices, current)
    requires s.persons[id].token.Some? ==> s.persons[id].token.value in s.tokens
    ensures var device := ReconcileDevice(s.(nextGuid := s.nextGuid + 1), id, c, current);
      var token := ReconcileToken(device.store, s.persons[id].SetSerialKey(GuidText(s.nextGuid)), c.deviceOs);
      SignIn(s, c, id, current).trace.calls == [DeviceGetByPerson(id)] + device.calls + token.calls
  {
  }

  /** What a selector sees in `SignIn`'s log is what it sees in the device
      step followed by what it sees in the token step. */
  lemma SignInLogSplits<T>(s: Store, c: AuthenticateCommand, id: Guid, current: Option<Guid>, pick: RepoCall -> Option<T>)
    requires id in s.persons && Answers(s.devices, current)
    requires s.persons[id].token.Some? ==> s.persons[id].token.value in s.tokens
    requires pick(DeviceGetByPerson(id)) == None
    ensures var device := ReconcileDevice(s.(nextGuid := s.nextGuid + 1), id, c, current);
      var token := ReconcileToken(device.store, s.persons[id].SetSerialKey(GuidText(s.nextGuid)), c.deviceOs);
      Select(SignIn(s, c, id, current).trace.calls, pick) == Select(device.calls, pick) + Select(token.calls, pick)
  {
    var device := ReconcileDevice(s.(nextGuid := s.nextGuid + 1), id, c, current);
    var token := ReconcileToken(device.store, s.persons[id].SetSerialKey(GuidText(s.nextGuid)), c.deviceOs);
    SignInLog(s, c, id, current);
    assert SignIn(s, c, id, current).trace.calls == [DeviceGetByPerson(id)] + (device.calls + token.calls);
    SelectAppend([DeviceGetByPerson(id)], device.calls + token.calls, pick);
    SelectAppend(device.calls, token.calls, pick);
  }

  /** A selector that skips the credential lookup sees the same in a
      successful authentication's log as in `SignIn`'s. */
  lemma AuthenticateSelectsSignIn<T>(s: Store, command: Option<AuthenticateCommand>, found: Option<Guid>, current: Option<Guid>, pick: RepoCall -> Option<T>)
    requires s.Valid() && Answers(s.persons, found) && Answers(s.devices, current)
    requires SignInAllowed(s, command, found)
    requires pick(PersonGetByUserNameAndPassword(command.value.user, command.value.password)) == None
    ensures Select(Authenticate(s, command, found, current).trace.calls, pick)
         == Select(SignIn(s, command.value, found.value, current).trace.calls, pick)
  {
    var lookup := [PersonGetByUserNameAndPassword(command.value.user, command.value.password)];
    AuthenticateIsSignIn(s, command, found, current);
    SelectAppend(lookup, SignIn(s, command.value, found.value, current).trace.calls, pick);
  }

  // ---------------------------------------------------------------------------
  // Authentication: device, token and serial key

  /** The device step as `SignIn`'s log and store show it. */
  lemma SignInDeviceStep(s: Store, c: AuthenticateCommand, id: Guid, current: Option<Guid>)
    requires s.DevicesIssued() && id in s.persons && Answers(s.devices, current)
    requires s.persons[id].token.Some? ==> s.persons[id].token.value in s.tokens
    ensures var o := SignIn(s, c, id, current);
      && (forall d :: d in s.devices && Some(d) != current ==> d in o.store.devices && o.store.devices[d] == s.devices[d])
      && (current.None? ==>
            DevicesUpdated(o.trace.calls) == [] && |DevicesAdded(o.trace.calls)| == 1
            && IsNewCurrentDevice(s, o.store, DevicesAdded(o.trace.calls)[0], id, c))
      && (current.Some? && s.devices[current.value].identification == c.identification ==>
            DevicesAdded(o.trace.calls) == [] && DevicesUpdated(o.trace.calls) == [] && o.store.devices == s.devices)
      && (current.Some? && s.devices[current.value].identification != c.identification ==>
            DevicesUpdated(o.trace.calls) == [s.devices[current.value].Retire()]
            && current.value in o.store.devices && o.store.devices[current.value] == s.devices[current.value].Retire()
            && |DevicesAdded(o.trace.calls)| == 1
            && IsNewCurrentDevice(s, o.store, DevicesAdded(o.trace.calls)[0], id, c))
  {
    var s1 := s.(nextGuid := s.nextGuid + 1);
    ReconcileDeviceLog(s1, id, c, current);
    var device := ReconcileDevice(s1, id, c, current);
    ReconcileTokenLog(device.store, s.persons[id].SetSerialKey(GuidText(s.nextGuid)), c.deviceOs);
    SignInLogSplits(s, c, id, current, AddedDevice);
    SignInLogSplits(s, c, id, current, UpdatedDevice);
  }

  /** Device reconciliation as the whole authentication shows it: with no
      current device exactly one device is added, for the person, with the
      command's identification; with the same identification nothing is added
      or updated; with another identification the old device is updated once,
      disabled and deactivated, and exactly one new device is added. */
  lemma AuthenticateDeviceStep(s: Store, command: Option<AuthenticateCommand>, found: Option<Guid>, current: Option<Guid>)
    requires s.Valid() && Answers(s.persons, found) && Answers(s.devices, current)
    requires SignInAllowed(s, command, found)
    ensures var o, c, id := Authenticate(s, command, found, current), command.value, found.value;
      && (forall d :: d in s.devices && Some(d) != current ==> d in o.store.devices && o.store.devices[d] == s.devices[d])
      && (current.None? ==>
            DevicesUpdated(o.trace.calls) == [] && |DevicesAdded(o.trace.calls)| == 1
            && IsNewCurrentDevice(s, o.store, DevicesAdded(o.trace.calls)[0], id, c))
      && (current.Some? && s.devices[current.value].identification == c.identification ==>
            DevicesAdded(o.trace.calls) == [] && DevicesUpdated(o.trace.calls) == [] && o.store.devices == s.devices)
      && (current.Some? && s.devices[current.value].identification != c.identification ==>
            DevicesUpdated(o.trace.calls) == [s.devices[current.value].Retire()]
            && current.value in o.store.devices && o.store.devices[current.value] == s.devices[current.value].Retire()
            && |DevicesAdded(o.trace.calls)| == 1
            && IsNewCurrentDevice(s, o.store, DevicesAdded(o.trace.calls)[0], id, c))
  {
    AuthenticateIsSignIn(s, command, found, current);
    SignInDeviceStep(s, command.value, found.value, current);
    AuthenticateSelectsSignIn(s, command, found, current, AddedDevice);
    AuthenticateSelectsSignIn(s, command, found, current, UpdatedDevice);
  }

  /** What token reconciliation leaves in the store: the new token, stored;
      the person's previous token, if any, deactivated; the person carrying
      the new token. */
  lemma ReconcileTokenStore(s: Store, person: Person, deviceOs: int)
    requires person.token.Some? ==> person.token.value in s.tokens
    ensures var r, t := ReconcileToken(s, person, deviceOs), NewToken(s.nextGuid, s.nextGuid + 1, deviceOs);
      && r.store.persons == s.persons[person.personId := person.SetToken(s.nextGuid)]
      && (person.token.None? ==> r.store.tokens == s.tokens[t.tokenId := t])
      && (person.token.Some? ==>
            r.store.tokens == s.tokens[person.token.value := s.tokens[person.token.value].Deactivate()][t.tokenId := t])
      && r.store.nextGuid == s.nextGuid + 2
  {
  }

  /** The store a successful authentication leaves and its result's serial
      key, in terms of the GUID `n` the generator stands at once the device
      step is done. */
  lemma AuthenticateTokenState(s: Store, command: Option<AuthenticateCommand>, found: Option<Guid>, current: Option<Guid>)
    requires s.Valid() && Answers(s.persons, found) && Answers(s.devices, current)
    requires SignInAllowed(s, command, found)
    ensures var o, c, id := Authenticate(s, command, found, current), command.value, found.value;
      var n := ReconcileDevice(s.(nextGuid := s.nextGuid + 1), id, c, current).store.nextGuid;
      var person := s.persons[id].SetSerialKey(GuidText(s.nextGuid)).SetToken(n);
      var prior := s.persons[id].token;
      var t := NewToken(n, n + 1, c.deviceOs);
      && s.nextGuid < n
      && o.store.persons == s.persons[id := person]
      && o.result.serialKey == GuidText(n + 1)
      && (prior.None? ==> o.store.tokens == s.tokens[n := t])
      && (prior.Some? ==> o.store.tokens == s.tokens[prior.value := s.tokens[prior.value].Deactivate()][n := t])
  {
    var c, id := command.value, found.value;
    var person := s.persons[id].SetSerialKey(GuidText(s.nextGuid));
    var device := ReconcileDevice(s.(nextGuid := s.nextGuid + 1), id, c, current);
    ReconcileTokenStore(device.store, person, c.deviceOs);
    AuthenticateIsSignIn(s, command, found, current);
    assert person.personId == id;
  }

  /** The token `SignIn`'s token step adds, with `n` the GUID the generator
      stands at once the device step is done. */
  lemma SignInTokenAdded(s: Store, c: AuthenticateCommand, id: Guid, current: Option<Guid>)
    requires id in s.persons && Answers(s.devices, current)
    requires s.persons[id].token.Some? ==> s.persons[id].token.value in s.tokens
    ensures var n := ReconcileDevice(s.(nextGuid := s.nextGuid + 1), id, c, current).store.nextGuid;
      TokensAdded(SignIn(s, c, id, current).trace.calls) == [NewToken(n, n + 1, c.deviceOs)]
  {
    var s1 := s.(nextGuid := s.nextGuid + 1);
    var device := ReconcileDevice(s1, id, c, current);
    var person := s.persons[id].SetSerialKey(GuidText(s.nextGuid));
    var token := ReconcileToken(device.store, person, c.deviceOs);
    assert TokensAdded(device.calls) == [] by {
      ReconcileDeviceOnlyDevices(s1, id, c, current);
    }
    assert TokensAdded(token.calls) == [NewToken(device.store.nextGuid, device.store.nextGuid + 1, c.deviceOs)] by {
      ReconcileTokenLog(device.store, person, c.deviceOs);
    }
    assert TokensAdded(SignIn(s, c, id, current).trace.calls) == TokensAdded(device.calls) + TokensAdded(token.calls) by {
      SignInLogSplits(s, c, id, current, AddedToken);
    }
  }

  /** The person `SignIn`'s token step stores: with its new serial key and token `n`. */
  lemma SignInPersonUpdated(s: Store, c: AuthenticateCommand, id: Guid, current: Option<Guid>)
    requires id in s.persons && Answers(s.devices, current)
    requires s.persons[id].token.Some? ==> s.persons[id].token.value in s.tokens
    ensures var n := ReconcileDevice(s.(nextGuid := s.nextGuid + 1), id, c, current).store.nextGuid;
      PersonsUpdated(SignIn(s, c, id, current).trace.calls) == [s.persons[id].SetSerialKey(GuidText(s.nextGuid)).SetToken(n)]
  {
    var s1 := s.(nextGuid := s.nextGuid + 1);
    var device := ReconcileDevice(s1, id, c, current);
    var person := s.persons[id].SetSerialKey(GuidText(s.nextGuid));
    var token := ReconcileToken(device.store, person, c.deviceOs);
    assert PersonsUpdated(device.calls) == [] by {
      ReconcileDeviceOnlyDevices(s1, id, c, current);
    }
    assert PersonsUpdated(token.calls) == [person.SetToken(device.store.nextGuid)] by {
      ReconcileTokenLog(device.store, person, c.deviceOs);
    }
    SignInLogSplits(s, c, id, current, UpdatedPerson);
  }

  /** The calls of `SignIn`'s token step that retire the person's previous token. */
  lemma SignInTokenRetired(s: Store, c: AuthenticateCommand, id: Guid, current: Option<Guid>)
    requires id in s.persons && Answers(s.devices, current)
    requires s.persons[id].token.Some? ==> s.persons[id].token.value in s.tokens
    ensures var o, prior := SignIn(s, c, id, current), s.persons[id].token;
      && (prior.None? ==> TokensUpdated(o.trace.calls) == [])
      && (prior.Some? ==> TokensUpdated(o.trace.calls) == [s.tokens[prior.value].Deactivate()])
  {
    var s1 := s.(nextGuid := s.nextGuid + 1);
    var device := ReconcileDevice(s1, id, c, current);
    var person := s.persons[id].SetSerialKey(GuidText(s.nextGuid));
    var token := ReconcileToken(device.store, person, c.deviceOs);
    assert TokensUpdated(device.calls) == [] by {
      ReconcileDeviceOnlyDevices(s1, id, c, current);
    }
    assert person.token == s.persons[id].token;
    ReconcileTokenLog(device.store, person, c.deviceOs);
    SignInLogSplits(s, c, id, current, UpdatedToken);
  }

  /** The token and person selections of a successful authentication are
      those of its sign-in. */
  lemma AuthenticateTokenSelections(s: Store, command: Option<AuthenticateCommand>, found: Option<Guid>, current: Option<Guid>)
    requires s.Valid() && Answers(s.persons, found) && Answers(s.devices, current)
    requires SignInAllowed(s, command, found)
    ensures var calls, signIn := Authenticate(s, command, found, current).trace.calls, SignIn(s, command.value, found.value, current).trace.calls;
      && TokensAdded(calls) == TokensAdded(signIn)
      && TokensUpdated(calls) == TokensUpdated(signIn)
      && PersonsUpdated(calls) == PersonsUpdated(signIn)
  {
    AuthenticateSelectsSignIn(s, command, found, current, AddedToken);
    AuthenticateSelectsSignIn(s, command, found, current, UpdatedToken);
    AuthenticateSelectsSignIn(s, command, found, current, UpdatedPerson);
  }

  /** The calls of the token step of a successful authentication, with `n` as above. */
  lemma AuthenticateTokenLog(s: Store, command: Option<AuthenticateCommand>, found: Option<Guid>, current: Option<Guid>)
    requires s.Valid() && Answers(s.persons, found) && Answers(s.devices, current)
    requires SignInAllowed(s, command, found)
    ensures var o, c, id := Authenticate(s, command, found, current), command.value, found.value;
      var n := ReconcileDevice(s.(nextGuid := s.nextGuid + 1), id, c, current).store.nextGuid;
      var prior := s.persons[id].token;
      && TokensAdded(o.trace.calls) == [NewToken(n, n + 1, c.deviceOs)]
      && PersonsUpdated(o.trace.calls) == [s.persons[id].SetSerialKey(GuidText(s.nextGuid)).SetToken(n)]
      && (prior.None? ==> TokensUpdated(o.trace.calls) == [])
      && (prior.Some? ==> TokensUpdated(o.trace.calls) == [s.tokens[prior.value].Deactivate()])
  {
    var c, id := command.value, found.value;
    assert id in s.persons && (s.persons[id].token.Some? ==> s.persons[id].token.value in s.tokens);
    AuthenticateTokenSelections(s, command, found, current);
    SignInTokenAdded(s, c, id, current);
    SignInPersonUpdated(s, c, id, current);
    SignInTokenRetired(s, c, id, current);
  }

  /** Token reconciliation as the whole authentication shows it: exactly one
      token is added, new and active, with a user token never issued before;
      it becomes the person's token, and the person is updated exactly once,
      carrying it; the result's serial key is that token's text. A token the
      person had is updated once, deactivated, kept, and is no longer theirs. */
  lemma AuthenticateTokenStep(s: Store, command: Option<AuthenticateCommand>, found: Option<Guid>, current: Option<Guid>)
    requires s.Valid() && Answers(s.persons, found) && Answers(s.devices, current)
    requires SignInAllowed(s, command, found)
    ensures var o, id := Authenticate(s, command, found, current), found.value;
      var prior := s.persons[id].token;
      && |TokensAdded(o.trace.calls)| == 1
      && var t := TokensAdded(o.trace.calls)[0];
      && t.tokenId !in s.tokens && t.active
      && (forall k :: k in s.tokens ==> s.tokens[k].userToken != t.userToken)
      && id in o.store.persons && o.store.persons[id].token == Some(t.tokenId)
      && PersonsUpdated(o.trace.calls) == [o.store.persons[id]]
      && o.result.serialKey == GuidText(t.userToken)
      && (prior.None? ==> TokensUpdated(o.trace.calls) == [] && o.store.tokens == s.tokens[t.tokenId := t])
      && (prior.Some? ==>
            TokensUpdated(o.trace.calls) == [s.tokens[prior.value].Deactivate()]
            && o.store.tokens == s.tokens[prior.value := s.tokens[prior.value].Deactivate()][t.tokenId := t]
            && o.store.persons[id].token != prior)
  {
    AuthenticateTokenState(s, command, found, current);
    AuthenticateTokenLog(s, command, found, current);
  }

  /** Every successful authentication gives the person a new serial key: one
      no person held before (so not the old one either), even when neither
      device nor token records change otherwise. Only the serial key and the
      token reference of that person change; other persons are untouched. The
      result carries the stored person's fields, and its serial key is the
      token's text, not the person's new serial key. */
  lemma AuthenticateRotatesSerialKey(s: Store, command: Option<AuthenticateCommand>, found: Option<Guid>, current: Option<Guid>)
    requires s.Valid() && Answers(s.persons, found) && Answers(s.devices, current)
    requires SignInAllowed(s, command, found)
    ensures var o, id := Authenticate(s, command, found, current), found.value;
      && o.store.persons.Keys == s.persons.Keys
      && var p := o.store.persons[id];
      && (forall q :: q in s.persons ==> p.serialKey != s.persons[q].serialKey)
      && p == s.persons[id].(serialKey := p.serialKey, token := p.token)
      && (forall q :: q in s.persons && q != id ==> o.store.persons[q] == s.persons[q])
      && o.result == Authenticated(p.name, o.result.serialKey, "", "", p.documentNumber, p.email, p.admin, p.visitor, p.resident)
      && o.result.serialKey != p.serialKey
  {
    var c, id := command.value, found.value;
    var s1 := s.(nextGuid := s.nextGuid + 1);
    var person := s.persons[id].SetSerialKey(GuidText(s.nextGuid));
    var device := ReconcileDevice(s1, id, c, current);
    var token := ReconcileToken(device.store, person, c.deviceOs);
    AuthenticateIsSignIn(s, command, found, current);
    forall q | q in s.persons
      ensures GuidText(s.nextGuid) != s.persons[q].serialKey
    {
      IssuedBeforeDiffers(s.persons[q].serialKey, s.nextGuid, s.nextGuid);
    }
    var t := token.store.tokens[token.store.persons[id].token.value];
    assert t.userToken == device.store.nextGuid + 1;
    if GuidText(t.userToken) == GuidText(s.nextGuid) {
      GuidTextInjective(t.userToken, s.nextGuid);
    }
  }

  // ---------------------------------------------------------------------------
  // At most one current device per person

  /** No person has two current devices. */
  ghost predicate OneCurrentDevice(s: Store)
  {
    forall a, b ::
      (a in s.devices && b in s.devices && s.devices[a].IsCurrent() && s.devices[b].IsCurrent()
       && s.devices[a].person == s.devices[b].person) ==> a == b
  }

  /** `current` is what a faithful `GetByPerson(owner)` returns: the person's
      current device, or null when the person has none. */
  ghost predicate CurrentDeviceOf(s: Store, owner: Guid, current: Option<Guid>)
  {
    match current
    case None => forall d :: d in s.devices ==> !(s.devices[d].person == owner && s.devices[d].IsCurrent())
    case Some(d) => d in s.devices && s.devices[d].person == owner && s.devices[d].IsCurrent()
  }

  /** With a faithful device lookup, signing in keeps at most one current
      device per person, and afterwards the person's current device is the
      one with the command's identification. */
  lemma SignInKeepsOneCurrentDevice(s: Store, c: AuthenticateCommand, id: Guid, current: Option<Guid>)
    requires s.DevicesIssued() && id in s.persons && Answers(s.devices, current)
    requires s.persons[id].token.Some? ==> s.persons[id].token.value in s.tokens
    requires OneCurrentDevice(s) && CurrentDeviceOf(s, id, current)
    ensures var o := SignIn(s, c, id, current);
      && OneCurrentDevice(o.store)
      && exists d :: CurrentDeviceOf(o.store, id, Some(d)) && o.store.devices[d].identification == c.identification
  {
    var o := SignIn(s, c, id, current);
    SignInDeviceStep(s, c, id, current);
    if current.Some? && s.devices[current.value].identification == c.identification {
      assert CurrentDeviceOf(o.store, id, current);
    } else {
      var d := DevicesAdded(o.trace.calls)[0];
      assert o.store.devices.Keys == s.devices.Keys + {d.deviceId};
      forall a, b | a in o.store.devices && b in o.store.devices && o.store.devices[a].IsCurrent() && o.store.devices[b].IsCurrent()
        && o.store.devices[a].person == o.store.devices[b].person
        ensures a == b
      {
      }
      assert CurrentDeviceOf(o.store, id, Some(d.deviceId));
    }
  }

  /** With a faithful device lookup, authentication keeps at most one current
      device per person, and afterwards the person's current device is the one
      with the command's identification. */
  lemma AuthenticateKeepsOneCurrentDevice(s: Store, command: Option<AuthenticateCommand>, found: Option<Guid>, current: Option<Guid>)
    requires s.Valid() && Answers(s.persons, found) && Answers(s.devices, current)
    requires OneCurrentDevice(s)
    requires SignInAllowed(s, command, found) ==> CurrentDeviceOf(s, found.value, current)
    ensures var o := Authenticate(s, command, found, current);
      && OneCurrentDevice(o.store)
      && (SignInAllowed(s, command, found) ==>
            exists d :: CurrentDeviceOf(o.store, found.value, Some(d))
              && o.store.devices[d].identification == command.value.identification)
  {
    if SignInAllowed(s, command, found) {
      AuthenticateIsSignIn(s, command, found, current);
      SignInKeepsOneCurrentDevice(s, command.value, found.value, current);
    }
  }

  /** Authenticating again from the same device, with a faithful device
      lookup, neither adds nor updates a device: the device step is idempotent. */
  lemma AuthenticateAgainKeepsDevices(s: Store, command: Option<AuthenticateCommand>, found: Option<Guid>, current: Option<Guid>, again: Option<Guid>)
    requires s.Valid() && Answers(s.persons, found) && Answers(s.devices, current)
    requires OneCurrentDevice(s) && SignInAllowed(s, command, found) && CurrentDeviceOf(s, found.value, current)
    requires var first := Authenticate(s, command, found, current).store;
      Answers(first.devices, again) && CurrentDeviceOf(first, found.value, again)
    ensures var first := Authenticate(s, command, found, current).store;
      && first.Valid() && Answers(first.persons, found)
      && var second := Authenticate(first, command, found, again);
      && second.result.Authenticated?
      && DevicesAdded(second.trace.calls) == [] && DevicesUpdated(second.trace.calls) == []
      && second.store.devices == first.devices
  {
    var first := Authenticate(s, command, found, current).store;
    assert first.Valid() by {
      AuthenticateKeepsValid(s, command, found, current);
    }
    assert SignInAllowed(first, command, found) by {
      AuthenticateTokenState(s, command, found, current);
    }
    assert again.Some? && first.devices[again.value].identification == command.value.identification by {
      AuthenticateKeepsOneCurrentDevice(s, command, found, current);
      var d :| CurrentDeviceOf(first, found.value, Some(d)) && first.devices[d].identification == command.value.identification;
      assert again == Some(d);
    }
    AuthenticateDeviceStep(first, command, found, again);
  }

  // ---------------------------------------------------------------------------
  // Current tokens

  /** Every person's current token is active and belongs to that person alone. */
  ghost predicate TokensCurrent(s: Store)
  {
    (forall id :: id in s.persons && s.persons[id].token.Some? && s.persons[id].token.value in s.tokens ==>
       s.tokens[s.persons[id].token.value].active)
    && (forall a, b ::
          (a in s.persons && b in s.persons && s.persons[a].token.Some? && s.persons[a].token == s.persons[b].token) ==> a == b)
  }

  /** Authentication keeps every person's current token active and unshared. */
  lemma AuthenticateKeepsTokensCurrent(s: Store, command: Option<AuthenticateCommand>, found: Option<Guid>, current: Option<Guid>)
    requires s.Valid() && Answers(s.persons, found) && Answers(s.devices, current)
    requires TokensCurrent(s)
    ensures TokensCurrent(Authenticate(s, command, found, current).store)
  {
    if SignInAllowed(s, command, found) {
      AuthenticateTokenState(s, command, found, current);
    }
  }

  /** Every active token in the repository is some person's current token.
      With `TokensCurrent` this says that a person holds at most one active
      token: the one its `Token` reference names. */
  ghost predicate ActiveTokensHeld(s: Store)
  {
    forall k :: k in s.tokens && s.tokens[k].active ==>
      exists id :: id in s.persons && s.persons[id].token == Some(k)
  }

  /** Under both invariants, each active token has exactly one holder, and a
      token a person does not currently hold is inactive. */
  lemma OneActiveTokenPerPerson(s: Store, id: Guid, k: Guid)
    requires TokensCurrent(s) && ActiveTokensHeld(s)
    requires id in s.persons && k in s.tokens && s.tokens[k].active
    ensures s.persons[id].token == Some(k) <==>
      (forall other :: other in s.persons && other != id ==> s.persons[other].token != Some(k))
  {
    var holder :| holder in s.persons && s.persons[holder].token == Some(k);
    if s.persons[id].token != Some(k) {
      assert holder != id && s.persons[holder].token == Some(k);
    }
  }

  /** Authentication deactivates every token it supersedes: afterwards every
      active token is still some person's current one. */
  lemma AuthenticateKeepsActiveTokensHeld(s: Store, command: Option<AuthenticateCommand>, found: Option<Guid>, current: Option<Guid>)
    requires s.Valid() && Answers(s.persons, found) && Answers(s.devices, current)
    requires ActiveTokensHeld(s)
    ensures ActiveTokensHeld(Authenticate(s, command, found, current).store)
  {
    var o := Authenticate(s, command, found, current);
    if SignInAllowed(s, command, found) {
      var id := found.value;
      var prior := s.persons[id].token;
      AuthenticateTokenState(s, command, found, current);
      var n := ReconcileDevice(s.(nextGuid := s.nextGuid + 1), id, command.value, current).store.nextGuid;
      forall k | k in o.store.tokens && o.store.tokens[k].active
        ensures exists h :: h in o.store.persons && o.store.persons[h].token == Some(k)
      {
        if k == n {
          assert o.store.persons[id].token == Some(k);
        } else {
          assert prior.Some? ==> k != prior.value;
          assert k in s.tokens && s.tokens[k].active;
          var h :| h in s.persons && s.persons[h].token == Some(k);
          assert h != id;
          assert o.store.persons[h] == s.persons[h];
        }
      }
    } else {
      AuthenticateContract(s, command, found, current);
    }
  }

  /** Registration adds no token and gives its new person none, so every
      active token keeps its holder. */
  lemma RegisterKeepsActiveTokensHeld(s: Store, c: RegisterCommand, byEmail: Option<Guid>)
    requires s.Valid() && ActiveTokensHeld(s)
    ensures ActiveTokensHeld(Register(s, c, byEmail).store)
  {
    var r := Register(s, c, byEmail).store;
    forall k | k in r.tokens && r.tokens[k].active
      ensures exists h :: h in r.persons && r.persons[h].token == Some(k)
    {
      var h :| h in s.persons && s.persons[h].token == Some(k);
      assert h < s.nextGuid;
      assert r.persons[h] == s.persons[h];
    }
  }

  /** A password reset changes only a password, so every active token keeps
      its holder. */
  lemma ForgotPasswordKeepsActiveTokensHeld(s: Store, c: ForgotPasswordCommand, byEmail: Option<Guid>, committed: bool)
    requires s.Valid() && Answers(s.persons, byEmail) && ActiveTokensHeld(s)
    ensures ActiveTokensHeld(ForgotPassword(s, c, byEmail, committed).store)
  {
    var f := ForgotPassword(s, c, byEmail, committed).store;
    forall k | k in f.tokens && f.tokens[k].active
      ensures exists h :: h in f.persons && f.persons[h].token == Some(k)
    {
      var h :| h in s.persons && s.persons[h].token == Some(k);
      assert f.persons[h].token == s.persons[h].token;
    }
  }

  /** A password change writes nothing, so every active token keeps its holder. */
  lemma ChangePasswordKeepsActiveTokensHeld(s: Store, c: ChangePasswordCommand, bySerialKey: Option<Guid>, byIdentification: Option<Guid>, reauthenticated: Option<Guid>)
    requires Answers(s.persons, bySerialKey) && Answers(s.devices, byIdentification) && Answers(s.persons, reauthenticated)
    requires ActiveTokensHeld(s)
    ensures ActiveTokensHeld(ChangePassword(s, c, bySerialKey, byIdentification, reauthenticated).store)
  {
  }

  // ---------------------------------------------------------------------------
  // Unique emails

  /** No two persons share an email. */
  ghost predicate EmailsUnique(s: Store)
  {
    forall a, b :: (a in s.persons && b in s.persons && s.persons[a].email == s.persons[b].email) ==> a == b
  }

  /** `byEmail` is what a faithful `GetByEmail(email)` returns. */
  ghost predicate PersonWithEmail(s: Store, email: string, byEmail: Option<Guid>)
  {
    match byEmail
    case None => forall id :: id in s.persons ==> s.persons[id].email != email
    case Some(id) => id in s.persons && s.persons[id].email == email
  }

  /** With a faithful email lookup, registration never creates a second person with the same email. */
  lemma RegisterKeepsEmailsUnique(s: Store, c: RegisterCommand, byEmail: Option<Guid>)
    requires s.Valid() && EmailsUnique(s) && PersonWithEmail(s, c.email, byEmail)
    ensures EmailsUnique(Register(s, c, byEmail).store)
  {
  }

  /** A password reset keeps emails unique: it changes only a password. */
  lemma ForgotPasswordKeepsEmails(s: Store, c: ForgotPasswordCommand, byEmail: Option<Guid>, committed: bool)
    requires s.Valid() && Answers(s.persons, byEmail) && EmailsUnique(s)
    ensures EmailsUnique(ForgotPassword(s, c, byEmail, committed).store)
  {
  }
}
