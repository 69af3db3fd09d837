# UserCommandHandler, modelled and verified in Dafny

This project models the user command handler of the ViewT Crediario domain,
`UserCommandHandler`. It has four `Handle` overloads:

- **Register** adds a new person with a fresh serial key.
- **Authenticate** checks the credentials. It then rotates the serial key,
  reconciles the person's device and replaces the session token.
- **ForgotPassword** gives the person a temporary password and raises
  `UserForgotPasswordRequestedEvent` when the unit of work commits.
- **ChangePassword** runs its three tiers of checks and changes nothing.

The project is layered as follows:

- `primitives.dfy` (module `Primitives`): GUIDs and their text, and the
  temporary password.
  - A GUID is a natural number. `Guid.Empty` is 0.
  - `Guid.NewGuid()` is a counter, so every GUID is new.
  - The text of a GUID is its lower-case hexadecimal digits. This text
    round-trips through a parser and is therefore injective.
- `entities.dfy` (module `Entities`): `Person`, `Device` and `Token` as
  records. Each in-place mutator (`SetSerialKey`, `SetToken`, `SetPassword`,
  `Disable`/`Deactivate`) becomes a function from the old record to the new.
- `commands.dfy` (module `Commands`): the commands, their results, the
  domain notifications and the validation predicates.
- `effects.dfy` (module `Effects`): what a handler leaves behind besides the
  repositories' contents:
  - the repository and unit-of-work calls, in order;
  - the domain events;
  - the pushed notifications.

  Selectors pick out the added or updated entities from a call log.
- `user_flows.dfy` (module `UserFlows`): each overload as a pure function.
  - Input: the repositories' contents (a `Store`).
  - Output: the new contents, the result and the trace.
  - A repository lookup (`GetByEmail`, `GetByUserNameAndPassword`,
    `GetByPerson`, `GetBySerialKey`, `GetByIdentification`) answers from code
    outside the handler, so its answer is a parameter: the id of the record
    found, or `None` for null.
  - The answer of `IUnitOfWork.Commit()` is a parameter too.
  - `*Contract` lemmas state what each overload does, case by case.
- `session_properties.dfy` (module `SessionProperties`): the properties.
  - The store invariant: every id comes from the generator, and no serial
    key is the text of a GUID the generator has yet to hand out.
  - Exactly which devices and tokens an authentication adds, updates and
    retires.
  - The serial key rotates on every successful authentication, to a key no
    person held.
  - At most one current device per person, and authenticating again from the
    same device changes no device.
  - Every person's token is active and belongs to that person alone, and
    every active token is some person's current token: a superseded token is
    always deactivated.
  - Emails are unique across Register and ForgotPassword.

  The properties that need the repositories to answer faithfully take that
  as a hypothesis: `CurrentDeviceOf` and `PersonWithEmail`.
- `handlers.dfy` (module `Handlers`): the handler itself, a class
  `UserCommandHandler`.
  - Its fields are the three repositories, the GUID generator, the
    notification list, the call log and the event list.
  - Each `Handle` overload is a method that updates them step by step, in
    the source's order.
  - Each method is proved to leave exactly the state, result and trace of
    the matching `UserFlows` function. The methods that take `Valid()` also
    keep it.

Four points of the handler's code shape the model:

- **Validation tiers.** Only the local tiers evaluate every predicate
  (`&`). The repository tiers of Authenticate and ChangePassword use `&&`
  and stop at the first failing predicate.
- **ChangePassword never stores `NewPassword`.** After its checks pass it
  returns an empty serial key and writes nothing.
- **The serial key in Authenticate's result is the new token's
  `UserToken`**, not the person's newly rotated serial key.
  `AuthenticateRotatesSerialKey` proves that the two differ.
- **Only ForgotPassword calls `Commit()`.** Register and Authenticate add
  and update through the repositories without it.

## Model

| member | source | states |
|---|---|---|
| Entities.Person.SetSerialKey | src/ViewT.Crediario.Domain/Main/Commands/Handlers/UserCommandHandler.cs:96 | `Person.SetSerialKey` as a record update that replaces the serial key alone (a definition, no contract) |
| Entities.Person.SetToken | src/ViewT.Crediario.Domain/Main/Commands/Handlers/UserCommandHandler.cs:126 | `Person.SetToken` as a record update that makes the token the person's current one, by id (a definition, no contract) |
| Entities.Person.SetPassword | src/ViewT.Crediario.Domain/Main/Commands/Handlers/UserCommandHandler.cs:182 | `Person.SetPassword` as a record update that replaces the password alone (a definition, no contract) |
| Entities.NewPerson | src/ViewT.Crediario.Domain/Main/Commands/Handlers/UserCommandHandler.cs:60 | The person registration builds: the command's fields, an empty phone number, active, no role flag, no token (a definition, no contract) |
| Entities.Device.Retire | src/ViewT.Crediario.Domain/Main/Commands/Handlers/UserCommandHandler.cs:110-111 | `Disable` followed by `Deactivate`: the device is no longer current and nothing else changes (a definition, no contract) |
| Entities.NewDevice | src/ViewT.Crediario.Domain/Main/Commands/Handlers/UserCommandHandler.cs:102 | The device authentication builds: the command's identification as device token and identification, empty description, push token and SIM number, bound to the person, enabled and active (a definition, no contract) |
| Entities.Token.Deactivate | src/ViewT.Crediario.Domain/Main/Commands/Handlers/UserCommandHandler.cs:134 | `Token.Deactivate`: the token is no longer active and nothing else changes (a definition, no contract) |
| Entities.NewToken | src/ViewT.Crediario.Domain/Main/Commands/Handlers/UserCommandHandler.cs:122 | A new active token with two new GUIDs as id and user token (a definition, no contract) |
| Primitives.GuidText | src/ViewT.Crediario.Domain/Main/Commands/Handlers/UserCommandHandler.cs:60 | The text of a GUID is never empty; it is one digit exactly when the GUID is below 16 |
| Primitives.ParseGuidText | src/ViewT.Crediario.Domain/Main/Commands/Handlers/UserCommandHandler.cs:60 | Reading a GUID's text back yields that GUID (round trip) |
| Primitives.GuidTextInjective | src/ViewT.Crediario.Domain/Main/Commands/Handlers/UserCommandHandler.cs:96 | Two GUIDs with the same text are the same GUID, so a key made from a new GUID is new |
| Primitives.FreshTextIssuedBefore | src/ViewT.Crediario.Domain/Main/Commands/Handlers/UserCommandHandler.cs:60 | The text of a GUID already handed out is a key the generator cannot produce again |
| Primitives.IssuedBeforeDiffers | src/ViewT.Crediario.Domain/Main/Commands/Handlers/UserCommandHandler.cs:96 | A key issued before the generator's position differs from the text of every later GUID |
| Primitives.TemporaryPassword | src/ViewT.Crediario.Domain/Main/Commands/Handlers/UserCommandHandler.cs:182 | The temporary password has between 1 and 7 characters and is a prefix of a new GUID's text |
| UserFlows.Register | src/ViewT.Crediario.Domain/Main/Commands/Handlers/UserCommandHandler.cs:36-69 | Registration never touches devices or tokens, raises no event, removes no person, and makes at most two calls (the email lookup and the add); the rest of what it does is in UserFlows.RegisterContract |
| UserFlows.Authenticate | src/ViewT.Crediario.Domain/Main/Commands/Handlers/UserCommandHandler.cs:71-160 | Authentication as a function of the store, the command (None for null) and the lookups' answers; it has no contract of its own, and what it does is stated by UserFlows.AuthenticateContract, SessionProperties.AuthenticateDeviceStep, AuthenticateTokenStep and AuthenticateRotatesSerialKey |
| UserFlows.CheckCredentials | src/ViewT.Crediario.Domain/Main/Commands/Handlers/UserCommandHandler.cs:85-159 | The credential lookup and the found and active checks, then sign-in; no contract of its own: the rejections are stated by SessionProperties.CheckCredentialsRejects and the success by UserFlows.AuthenticateContract |
| UserFlows.ForgotPassword | src/ViewT.Crediario.Domain/Main/Commands/Handlers/UserCommandHandler.cs:162-203 | The password reset as a function of the store, the email lookup's answer and the commit's answer; no contract of its own: what it does is stated by UserFlows.ForgotPasswordContract |
| UserFlows.ChangePassword | src/ViewT.Crediario.Domain/Main/Commands/Handlers/UserCommandHandler.cs:205-246 | Changing a password never changes the store, always returns an empty serial key, raises no event and makes at most three lookups |
| UserFlows.OwnershipChecks | src/ViewT.Crediario.Domain/Main/Commands/Handlers/UserCommandHandler.cs:217-226 | The second tier pushes at most one notification, and none exactly when the serial key finds a person, the identification finds a device, and that device is the person's |
| UserFlows.ReauthenticationChecks | src/ViewT.Crediario.Domain/Main/Commands/Handlers/UserCommandHandler.cs:228-236 | The third tier pushes at most one notification, and none exactly when the old password finds an active person |
| UserFlows.RegisterContract | src/ViewT.Crediario.Domain/Main/Commands/Handlers/UserCommandHandler.cs:36-69 | A user id is returned exactly when email and password are valid and the email lookup finds nobody. Failed field checks push their notifications and make no call. A taken email pushes one notification after one lookup. On failure nothing is written. On success exactly one new person is added, with a new id and the command's name, document, email and password, an empty phone number, a serial key no stored person holds, active and without a token. |
| UserFlows.AuthenticateContract | src/ViewT.Crediario.Domain/Main/Commands/Handlers/UserCommandHandler.cs:71-160 | The result is non-empty exactly when the command is present, has user and password, and the credentials find an active person. A null command pushes one notification; missing fields push theirs, with no call. Otherwise the credential lookup is the first call. Finding nobody pushes only the login-failed notification, and finding an inactive person only the inactive notification; either rejection makes the credential lookup and no other call. A failure writes nothing. A success pushes nothing. No event is raised. |
| UserFlows.ReconcileDevice | src/ViewT.Crediario.Domain/Main/Commands/Handlers/UserCommandHandler.cs:98-118 | Device reconciliation touches neither persons nor tokens. A current device with the command's identification leaves everything as it was, with no call. |
| UserFlows.ReconcileToken | src/ViewT.Crediario.Domain/Main/Commands/Handlers/UserCommandHandler.cs:120-146 | Token reconciliation leaves devices alone and always issues a GUID. Afterwards the person is stored with a token, and that token is in the repository. |
| UserFlows.SignIn | src/ViewT.Crediario.Domain/Main/Commands/Handlers/UserCommandHandler.cs:95-159 | Once the guards pass, authentication always succeeds, pushes no notification and raises no event |
| UserFlows.ForgotPasswordContract | src/ViewT.Crediario.Domain/Main/Commands/Handlers/UserCommandHandler.cs:162-203 | A serial key is returned exactly when the email is valid, finds a person, and the commit succeeds; that key is the person's unchanged serial key. Exactly then, one UserForgotPasswordRequested event is raised, carrying the stored person. An invalid email pushes EmailProper with no call. Otherwise the email lookup comes first. Without a reset nothing is written. A reset changes only that person's password, to 1–7 characters; it updates the person once and ends with Commit. |
| UserFlows.ChangePasswordContract | src/ViewT.Crediario.Domain/Main/Commands/Handlers/UserCommandHandler.cs:205-246 | The serial key returned is always empty, and nothing is written or raised. No notification is pushed exactly when identification and serial key are present, the person and the device are found, the device is that person's, and the old password finds an active person. A missing field pushes both field checks' notifications (each check runs) and makes no call. Otherwise the serial-key lookup and the identification lookup come first, and the third call is made exactly when the ownership tier passes: it is the old-password lookup, by the email of the person found by serial key and the command's old password. At most two notifications are pushed. |
| SessionProperties.RegisterKeepsValid | src/ViewT.Crediario.Domain/Main/Commands/Handlers/UserCommandHandler.cs:58-63 | Registration keeps the store invariant: ids come from the generator, no serial key is the text of a GUID the generator has yet to hand out, devices belong to stored persons, and current tokens are stored |
| SessionProperties.ReconcileDeviceKeepsValid | src/ViewT.Crediario.Domain/Main/Commands/Handlers/UserCommandHandler.cs:98-118 | Device reconciliation for a stored person keeps the store invariant |
| SessionProperties.ReconcileTokenKeepsValid | src/ViewT.Crediario.Domain/Main/Commands/Handlers/UserCommandHandler.cs:120-146 | Token reconciliation keeps the store invariant, for a stored person whose serial key is not the text of a GUID the generator has yet to hand out |
| SessionProperties.SignInKeepsValid | src/ViewT.Crediario.Domain/Main/Commands/Handlers/UserCommandHandler.cs:95-146 | Signing in keeps the store invariant, including the freshly rotated serial key |
| SessionProperties.AuthenticateKeepsValid | src/ViewT.Crediario.Domain/Main/Commands/Handlers/UserCommandHandler.cs:71-160 | Authentication keeps the store invariant, whatever the outcome |
| SessionProperties.ForgotPasswordKeepsValid | src/ViewT.Crediario.Domain/Main/Commands/Handlers/UserCommandHandler.cs:178-195 | A password reset keeps the store invariant |
| SessionProperties.ReconcileDeviceOnlyDevices | src/ViewT.Crediario.Domain/Main/Commands/Handlers/UserCommandHandler.cs:98-118 | Device reconciliation adds or updates no person and no token |
| SessionProperties.ReconcileDeviceLog | src/ViewT.Crediario.Domain/Main/Commands/Handlers/UserCommandHandler.cs:98-118 | Every device other than the current one is kept. With no current device, exactly one device is added: new, the person's, with the command's identification, enabled and active. With the same identification nothing is added or updated. With another identification the old device is updated once, disabled and deactivated, and exactly one such new device is added. |
| SessionProperties.ReconcileTokenLog | src/ViewT.Crediario.Domain/Main/Commands/Handlers/UserCommandHandler.cs:120-146 | Token reconciliation adds exactly one new active token and updates the person once, carrying that token. It deactivates and updates the previous token when there was one, and updates no token otherwise. It touches no device. |
| SessionProperties.CheckCredentialsRejects | src/ViewT.Crediario.Domain/Main/Commands/Handlers/UserCommandHandler.cs:85-93 | Credentials that find nobody push only the login-failed notification; an inactive person pushes only the inactive notification. In both cases only the credential lookup is made and nothing changes. |
| SessionProperties.SignInLogSplits | src/ViewT.Crediario.Domain/Main/Commands/Handlers/UserCommandHandler.cs:98-146 | What any selector ignoring the device lookup picks from the sign-in calls is what it picks from the device step, then from the token step |
| SessionProperties.AuthenticateSelectsSignIn | src/ViewT.Crediario.Domain/Main/Commands/Handlers/UserCommandHandler.cs:85-146 | Any selector ignoring the credential lookup picks the same from a successful authentication's calls as from the sign-in calls |
| SessionProperties.SignInDeviceStep | src/ViewT.Crediario.Domain/Main/Commands/Handlers/UserCommandHandler.cs:98-118 | The device cases of ReconcileDeviceLog, as the whole sign-in's calls and final store show them |
| SessionProperties.AuthenticateDeviceStep | src/ViewT.Crediario.Domain/Main/Commands/Handlers/UserCommandHandler.cs:98-118 | The device cases of ReconcileDeviceLog, as the whole authentication's calls and final store show them: no device added and none updated for the same identification; one update and one add for another |
| SessionProperties.AuthenticateTokenState | src/ViewT.Crediario.Domain/Main/Commands/Handlers/UserCommandHandler.cs:96-151 | After a successful authentication the person has the rotated serial key and the new token, and only that person changes. The token repository gains that token, with the previous one deactivated. The result's serial key is the text of the new token's user token. |
| SessionProperties.SignInTokenAdded | src/ViewT.Crediario.Domain/Main/Commands/Handlers/UserCommandHandler.cs:120-146 | Signing in adds exactly one token. It is new and active, and its id and user token are the generator's next two GUIDs after the device step. |
| SessionProperties.SignInPersonUpdated | src/ViewT.Crediario.Domain/Main/Commands/Handlers/UserCommandHandler.cs:126-145 | Signing in updates the person exactly once, carrying the rotated serial key and the new token |
| SessionProperties.SignInTokenRetired | src/ViewT.Crediario.Domain/Main/Commands/Handlers/UserCommandHandler.cs:130-136 | Signing in updates a token only to deactivate the person's previous token, once; with no previous token it updates none |
| SessionProperties.AuthenticateTokenLog | src/ViewT.Crediario.Domain/Main/Commands/Handlers/UserCommandHandler.cs:120-146 | The token calls of a successful authentication: one token added, one person update carrying it, and the previous token deactivated once if there was one |
| SessionProperties.AuthenticateTokenStep | src/ViewT.Crediario.Domain/Main/Commands/Handlers/UserCommandHandler.cs:120-151 | Exactly one token is added. It is new and active, and its user token differs from every stored one. It becomes the person's token, and the person is updated once with it. The result's serial key is its text. A previous token is deactivated once, kept, and no longer the person's. |
| SessionProperties.AuthenticateRotatesSerialKey | src/ViewT.Crediario.Domain/Main/Commands/Handlers/UserCommandHandler.cs:96-159 | Every successful authentication gives the person a serial key no person held before, its old one included. Only that person's serial key and token change, and no person is added or removed. The result carries the stored person's fields, and its serial key differs from the person's new serial key. |
| SessionProperties.SignInKeepsOneCurrentDevice | src/ViewT.Crediario.Domain/Main/Commands/Handlers/UserCommandHandler.cs:98-118 | With a faithful device lookup, signing in keeps at most one current device per person. Afterwards the person's current device has the command's identification. |
| SessionProperties.AuthenticateKeepsOneCurrentDevice | src/ViewT.Crediario.Domain/Main/Commands/Handlers/UserCommandHandler.cs:98-118 | The same for authentication, whatever its outcome |
| SessionProperties.AuthenticateAgainKeepsDevices | src/ViewT.Crediario.Domain/Main/Commands/Handlers/UserCommandHandler.cs:98-118 | Authenticating a second time with the same command succeeds, and with a faithful device lookup it adds and updates no device: the device step is idempotent |
| SessionProperties.AuthenticateKeepsTokensCurrent | src/ViewT.Crediario.Domain/Main/Commands/Handlers/UserCommandHandler.cs:120-146 | Authentication keeps every person's current token active and held by that person alone |
| SessionProperties.OneActiveTokenPerPerson | src/ViewT.Crediario.Domain/Main/Commands/Handlers/UserCommandHandler.cs:120-146 | Under both token invariants, a person holds a given active token exactly when no other person holds it: each active token has one holder, so a person has at most one active token |
| SessionProperties.AuthenticateKeepsActiveTokensHeld | src/ViewT.Crediario.Domain/Main/Commands/Handlers/UserCommandHandler.cs:120-146 | Authentication keeps every active token some person's current token: the token it supersedes is deactivated, and the new one is the person's |
| SessionProperties.RegisterKeepsActiveTokensHeld | src/ViewT.Crediario.Domain/Main/Commands/Handlers/UserCommandHandler.cs:58-63 | Registration keeps every active token some person's current token |
| SessionProperties.ForgotPasswordKeepsActiveTokensHeld | src/ViewT.Crediario.Domain/Main/Commands/Handlers/UserCommandHandler.cs:180-187 | A password reset keeps every active token some person's current token |
| SessionProperties.ChangePasswordKeepsActiveTokensHeld | src/ViewT.Crediario.Domain/Main/Commands/Handlers/UserCommandHandler.cs:205-246 | A password change keeps every active token some person's current token |
| SessionProperties.RegisterKeepsEmailsUnique | src/ViewT.Crediario.Domain/Main/Commands/Handlers/UserCommandHandler.cs:50-63 | With a faithful email lookup, registration never creates a second person with the same email |
| SessionProperties.ForgotPasswordKeepsEmails | src/ViewT.Crediario.Domain/Main/Commands/Handlers/UserCommandHandler.cs:178-184 | A password reset keeps emails unique |
| Handlers.UserCommandHandler.constructor | src/ViewT.Crediario.Domain/Main/Commands/Handlers/UserCommandHandler.cs:25-34 | A new handler has empty repositories and logs, and a valid store |
| Handlers.UserCommandHandler.NewGuid | src/ViewT.Crediario.Domain/Main/Commands/Handlers/UserCommandHandler.cs:60 | `Guid.NewGuid()` returns the generator's next GUID and advances it, changing nothing else |
| Handlers.UserCommandHandler.Notify | src/ViewT.Crediario.Domain/Main/Commands/Handlers/UserCommandHandler.cs:41 | Evaluating a validation predicate pushes its notification exactly when it fails, and changes nothing else |
| Handlers.UserCommandHandler.Register | src/ViewT.Crediario.Domain/Main/Commands/Handlers/UserCommandHandler.cs:36-69 | The method leaves exactly the store, result, notifications, calls and events of `UserFlows.Register`, and keeps the store invariant |
| Handlers.UserCommandHandler.ReconcileDevice | src/ViewT.Crediario.Domain/Main/Commands/Handlers/UserCommandHandler.cs:98-118 | The method leaves exactly the store and calls of `UserFlows.ReconcileDevice`; notifications and events are unchanged |
| Handlers.UserCommandHandler.ReconcileToken | src/ViewT.Crediario.Domain/Main/Commands/Handlers/UserCommandHandler.cs:120-146 | The method leaves exactly the store and calls of `UserFlows.ReconcileToken`; notifications and events are unchanged |
| Handlers.UserCommandHandler.SignIn | src/ViewT.Crediario.Domain/Main/Commands/Handlers/UserCommandHandler.cs:95-159 | The method leaves exactly the store, result and calls of `UserFlows.SignIn`; notifications and events are unchanged |
| Handlers.UserCommandHandler.Authenticate | src/ViewT.Crediario.Domain/Main/Commands/Handlers/UserCommandHandler.cs:71-160 | The method leaves exactly the store, result and trace of `UserFlows.Authenticate`, and keeps the store invariant |
| Handlers.UserCommandHandler.CheckCredentials | src/ViewT.Crediario.Domain/Main/Commands/Handlers/UserCommandHandler.cs:85-159 | The method leaves exactly the store, result and trace of the credential check followed by signing in |
| Handlers.UserCommandHandler.ForgotPassword | src/ViewT.Crediario.Domain/Main/Commands/Handlers/UserCommandHandler.cs:162-203 | The method leaves exactly the store, result and trace of `UserFlows.ForgotPassword`, and keeps the store invariant |
| Handlers.UserCommandHandler.CheckOwnership | src/ViewT.Crediario.Domain/Main/Commands/Handlers/UserCommandHandler.cs:217-226 | The method pushes the first failing check among person found, device found and device of that person, and reports success exactly when none fails |
| Handlers.UserCommandHandler.CheckReauthentication | src/ViewT.Crediario.Domain/Main/Commands/Handlers/UserCommandHandler.cs:228-236 | The method pushes login-failed when the old password finds nobody and inactive when it finds an inactive person; it reports success exactly when neither happens |
| Handlers.UserCommandHandler.ChangePassword | src/ViewT.Crediario.Domain/Main/Commands/Handlers/UserCommandHandler.cs:205-246 | The method leaves exactly the store, result and trace of `UserFlows.ChangePassword`, so it changes no repository |

## Left out

- GUID generation is a counter, not random. The text of a GUID is its
  unpadded hexadecimal digits, not the 32-digit .NET format.
  Authenticate's result carries `UserToken.ToString()`, which in .NET keeps
  the dashes. The model uses the same undashed text for it.
- Primitives.TemporaryPassword: a prefix of the GUID text of up to seven
  characters. The source takes exactly the first seven characters of the
  dashed 36-character form. Only the length bound and the prefix relation
  are kept.
- The validation predicates' bodies live in command classes that are not
  part of this model. Presence of a field is modelled as "non-empty".
  `HasValidEmail` is modelled as "an '@' with text on both sides".
- Password hashing, if any, lies behind `GetByUserNameAndPassword`, which
  is not part of this model. Its answer, like every other lookup's and like
  `Commit()`'s, is a parameter. Only the properties that say "with a
  faithful lookup" constrain those answers.
- `DeviceOs.FromValue` is not part of this model. The operating-system code
  is kept as the integer the command carries. The command's `DeviceModel`
  and `VersionOs` are carried but unused, as in the handler.
- `DomainEvent.Raise` and its handler registry, the event's `DateTime.Now`
  timestamp, and the e-mail notification handler are left out. An event is
  modelled as appended to the handler's event list.
- Entity constructors are not part of this model. Their defaults are
  assumed:
  - a new person is active, with no role flag and no token;
  - a new device is enabled and active;
  - a new token is active.
- `HasFoundDeviceBelongsToPerson` lives in the ChangePassword command, which
  is not part of this model. It is modelled as "the device's owner is the
  person found by serial key".
- The message resources of ChangePassword's third tier are not part of this
  model. That tier reuses Authenticate's names, `UserAuthenticateLoginFailed`
  and `UserAuthenticateUserIsInactive`.
- `CommandRequired`, `IdentificationRequired`, `SerialKeyRequired`,
  `PersonNotFound`, `DeviceNotFound` and `DeviceNotOfPerson` are names made
  up for this model. Only the messages that Register's and Authenticate's
  tests name, for those two overloads, come from the source's message resources: `EmailProper`, `UserRegisterPasswordProper`,
  `UserRegisterEmailAlreadyTaken` and the four `UserAuthenticate*` messages.
- Register returns `PersonId` of what `_personRepository.Add` answers. The
  model assumes Add returns the person it was given.
- `Commit()` belongs to the base class `CommandHandler`, which is not part
  of this model. Only its boolean answer is modelled. A notification it might
  push when the commit fails is not modelled, so ForgotPassword's trace
  carries no notification in that case.
- ForgotPassword's `HasValidEmail` lives in its own command class, which is
  not part of this model. Its failure reuses Register's `EmailProper` name.
- Null strings are modelled as empty strings. A null command is modelled
  with `Option` only for Authenticate, the one overload that checks for it.
- Unit-of-work durability: the repositories in the model hold what the
  handler added or updated, whether or not `Commit()` is called or
  succeeds. What reaches the database is left out.
- Dependency injection, the repositories' implementations, and concurrent
  commands are left out. Each command runs alone against the handler's
  state.
- The new password of a ChangePassword command is never applied, following
  the code: after its checks pass, the handler returns without writing. The
  handler's code leaves open whether a password change was meant to follow, and
  the model does not decide it.
