/** The three aggregates the user handlers read and write: Person, Device, Token.
    The entities change in place in the program (`SetSerialKey`, `SetToken`,
    `SetPassword`, `Disable`, `Deactivate`, `Token.Deactivate`); here each of
    those mutators is a function from the old record to the new one, and the
    repositories of `Handlers.UserCommandHandler` hold the records by id. */
module Entities {
  import opened Primitives

  datatype PersonUserStatus = Active | Inactive

  datatype Person = Person(
    personId: Guid,
    name: string,
    documentNumber: string,
    phoneNumber: string,
    email: string,
    password: string,
    serialKey: string,
    admin: bool,
    visitor: bool,
    resident: bool,
    status: PersonUserStatus,
    /** The person's current session token, by id; null when it has none. */
    token: Option<Guid>)
  {
    /** `Person.SetSerialKey`. */
    function SetSerialKey(key: string): (p: Person)
    {
      this.(serialKey := key)
    }

    /** `Person.SetToken`. */
    function SetToken(t: Guid): (p: Person)
    {
      this.(token := Some(t))
    }

    /** `Person.SetPassword`. */
    function SetPassword(pw: string): (p: Person)
    {
      this.(password := pw)
    }
  }

  /** A new person as registration builds it: the fields of the command, an
      empty phone number, and the entity's defaults (active, no role flag, no token). */
  function NewPerson(id: Guid, name: string, documentNumber: string, email: string, password: string, serialKey: string): (p: Person)
  {
    Person(id, name, documentNumber, "", email, password, serialKey, false, false, false, PersonUserStatus.Active, None)
  }

  datatype DeviceStatus = Active | Inactive

  datatype Device = Device(
    deviceId: Guid,
    description: string,
    deviceToken: string,
    pushToken: string,
    simCardNumber: string,
    /** The operating-system code `DeviceOs.FromValue` receives. */
    deviceOs: int,
    /** The client-supplied installation fingerprint. */
    identification: string,
    /** The owning person, by id (a back-reference: the device does not own it). */
    person: Guid,
    active: bool,
    status: DeviceStatus)
  {
    /** A device the person currently uses: both enabled and active. */
    predicate IsCurrent()
    {
      active && status == DeviceStatus.Active
    }

    /** `Device.Disable` followed by `Device.Deactivate`: both flags off, nothing else touched. */
    function Retire(): (d: Device)
    {
      this.(status := DeviceStatus.Inactive, active := false)
    }
  }

  /** The device authentication creates: the command's identification both as
      device token and as identification, empty description, push token and SIM
      number, bound to `person`, enabled and active. */
  function NewDevice(id: Guid, identification: string, deviceOs: int, person: Guid): (d: Device)
  {
    Device(id, "", identification, "", "", deviceOs, identification, person, true, DeviceStatus.Active)
  }

  datatype Token = Token(tokenId: Guid, userToken: Guid, deviceOs: int, active: bool)
  {
    /** `Token.Deactivate`. */
    function Deactivate(): (t: Token)
    {
      this.(active := false)
    }
  }

  /** A new session token, active. */
  function NewToken(id: Guid, userToken: Guid, deviceOs: int): (t: Token)
  {
    Token(id, userToken, deviceOs, true)
  }
}
