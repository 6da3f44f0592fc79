/** The records that the account service passes between its components
    (Auth/Models and the stored account record of Data.Access). */
module Models {
  import opened Wrappers

  newtype byte = x: int | 0 <= x < 256

  /** A 128-bit identifier; `EmptyGuid` is `Guid.Empty`. */
  type Guid = g: nat | g < 0x1_0000_0000_0000_0000_0000_0000_0000_0000

  const EmptyGuid: Guid := 0

  /** Instants are whole seconds counted from 0001-01-01T00:00, so the
      default `DateTime` value is 0. */
  type Instant = int

  const DefaultInstant: Instant := 0

  /** Classification of a token against a user. */
  datatype JwtTokenStatus = Valid | Expired | Invalid

  /** A serialised token with its refresh string and expiry. */
  datatype JwtTokenInfo = JwtTokenInfo(token: string, refreshToken: string, tokenValidTo: Instant)

  /** `tokenInfo` is `None` where the program leaves the property null. */
  datatype LoginResult = LoginResult(success: bool, tokenInfo: Option<JwtTokenInfo>)

  datatype RegisterResult = RegisterResult(success: bool, message: string)

  datatype UserInformation = UserInformation(
    firstName: string,
    lastName: string,
    primaryLocationId: Guid,
    birthDate: Instant)

  datatype RegisterRequest = RegisterRequest(
    username: string,
    password: string,
    userInformation: UserInformation)

  datatype AdditionalUserInformation = AdditionalUserInformation(
    firstName: string,
    lastName: string,
    primaryLocationId: Guid,
    birthDate: Instant)

  /** The stored account record, with the columns of the UserData table.
      `None` stands for a null column. */
  datatype UserData = UserData(
    id: Guid,
    username: string,
    passwordHash: Option<string>,
    salt: Option<seq<byte>>,
    refreshToken: Option<string>,
    refreshTokenExpiryTime: Instant,
    bannedTill: Option<Instant>,
    additionalUserInformation: Option<AdditionalUserInformation>)
}
