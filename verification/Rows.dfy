/** Table rows and the domain's value types. */
module Rows {
  import opened Wrappers
  import opened Uuids

  /** Microseconds since the Unix epoch. */
  type Time = int

  /** A salted one-way hash, kept symbolic: the hasher's verify matches exactly the hashed password. */
  datatype HashedPassword = HashedPassword(salt: string, password: string)

  predicate Verify(plain: string, hashed: HashedPassword) {
    hashed.password == plain
  }

  datatype UserRow = UserRow(id: Uuid, email: string, hashedPassword: HashedPassword, isActive: bool, createdAt: Time)

  datatype UserView = UserView(id: Uuid, email: string, isActive: bool, createdAt: Time)

  function View(u: UserRow): UserView {
    UserView(u.id, u.email, u.isActive, u.createdAt)
  }

  datatype TokenRow = TokenRow(jti: Uuid, userId: Uuid, familyId: Uuid, expiresAt: Time, revokedAt: Option<Time>) {
    predicate IsRevoked() { revokedAt.Some? }

    /** The row after a write-once revocation. */
    function Revoked(at: Time): TokenRow {
      if revokedAt.None? then this.(revokedAt := Some(at)) else this
    }
  }

  type UserTable = map<Uuid, UserRow>
  type TokenTable = map<Uuid, TokenRow>

  datatype Error =
    | ValidationFailed
    | InvalidCredentials
    | InvalidToken
    | TokenExpired
    | UserNotFound
    | EmailAlreadyExists
}
