/** The four user commands, their results, the domain notifications the
    validation predicates push, and those predicates. */
module Commands {
  import opened Primitives

  /** UserRegisterCommand: the fields `Handle(UserRegisterCommand)` reads. */
  datatype RegisterCommand = RegisterCommand(name: string, documentNumber: string, email: string, password: string)

  /** UserAuthenticateCommand. A null string field is modelled as the empty string. */
  datatype AuthenticateCommand = AuthenticateCommand(
    user: string,
    password: string,
    identification: string,
    deviceOs: int,
    deviceModel: string,
    versionOs: string)

  /** UserForgotPasswordCommand. */
  datatype ForgotPasswordCommand = ForgotPasswordCommand(email: string)

  /** UserChangePasswordCommand. */
  datatype ChangePasswordCommand = ChangePasswordCommand(
    identification: string,
    serialKey: string,
    oldPassword: string,
    newPassword: string)

  /** UserRegisterCommandResult; `EmptyGuid` on failure. */
  datatype RegisterResult = RegisterResult(userId: Guid)

  /** UserAuthenticateCommandResult. A failed authentication returns the result
      object with every property left at its default: `EmptyAuthentication`. */
  datatype AuthenticateResult =
    | EmptyAuthentication
    | Authenticated(
        name: string,
        serialKey: string,
        pushToken: string,
        phoneNumber: string,
        document: string,
        email: string,
        admin: bool,
        visitor: bool,
        resident: bool)

  /** UserForgotPasswordCommandResult and UserChangePasswordCommandResult; `""` on failure. */
  datatype SerialKeyResult = SerialKeyResult(serialKey: string)

  /** The domain notifications, one per validation predicate. Where the message
      resource of a predicate is known it keeps that resource's name. */
  datatype Notification =
    | EmailProper                       // HasValidEmail
    | UserRegisterPasswordProper        // HasValidPassword
    | UserRegisterEmailAlreadyTaken     // HasUniqueUserEmail
    | CommandRequired                   // IsNotNull
    | UserAuthenticateUserRequired      // HasUserName
    | UserAuthenticatePasswordRequired  // HasPassword
    | UserAuthenticateLoginFailed       // HasFoundAuthorizedUser
    | UserAuthenticateUserIsInactive    // HasActiveUser
    | IdentificationRequired            // HasIdentification
    | SerialKeyRequired                 // HasSerialKey
    | PersonNotFound                    // HasFoundPerson
    | DeviceNotFound                    // HasFoundDevice
    | DeviceNotOfPerson                 // HasFoundDeviceBelongsToPerson

  /** What evaluating one validation predicate pushes: its message when it fails, nothing when it holds. */
  function Check(holds: bool, message: Notification): (pushed: seq<Notification>)
  {
    if holds then [] else [message]
  }

  /** HasValidEmail: a non-empty local part and domain around an '@'. */
  predicate HasValidEmail(email: string)
  {
    exists i :: 0 < i < |email| - 1 && email[i] == '@'
  }

  /** HasValidPassword, HasUserName, HasPassword, HasIdentification, HasSerialKey: the field is present. */
  predicate Present(field: string)
  {
    |field| > 0
  }
}
