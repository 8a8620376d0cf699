/** The domain entities whose fields change in place. */
module Entities {
  import opened Wrappers
  import opened Uuids
  import opened Rows

  class RefreshTokenRecord {
    const jti: Uuid
    const userId: Uuid
    const familyId: Uuid
    const expiresAt: Time
    var revokedAt: Option<Time>

    constructor (row: TokenRow)
      ensures Row() == row
    {
      jti, userId, familyId, expiresAt, revokedAt := row.jti, row.userId, row.familyId, row.expiresAt, row.revokedAt;
    }

    function Row(): TokenRow
      reads this
    {
      TokenRow(jti, userId, familyId, expiresAt, revokedAt)
    }

    predicate IsRevoked()
      reads this
    {
      revokedAt.Some?
    }

    /** Write-once: a second revocation does not move the first one's time. */
    method Revoke(at: Time)
      modifies this
      ensures Row() == old(Row()).Revoked(at)
    {
      if revokedAt.None? {
        revokedAt := Some(at);
      }
    }
  }

  datatype UserRegistered = UserRegistered(userId: Uuid, email: string, occurredAt: Time)

  class User {
    const id: Uuid
    const email: string
    const createdAt: Time
    var hashedPassword: HashedPassword
    var isActive: bool
    var events: seq<UserRegistered>

    /** Rebuilds a stored user. */
    constructor Load(row: UserRow)
      ensures Row() == row && events == []
    {
      id, email, createdAt, hashedPassword, isActive := row.id, row.email, row.createdAt, row.hashedPassword, row.isActive;
      events := [];
    }

    /** A new user is active and has recorded its registration. */
    constructor Create(id: Uuid, email: string, hashedPassword: HashedPassword, createdAt: Time)
      ensures Row() == UserRow(id, email, hashedPassword, true, createdAt)
      ensures events == [UserRegistered(id, email, createdAt)]
    {
      this.id, this.email, this.createdAt, this.hashedPassword := id, email, createdAt, hashedPassword;
      isActive := true;
      events := [UserRegistered(id, email, createdAt)];
    }

    function Row(): UserRow
      reads this
    {
      UserRow(id, email, hashedPassword, isActive, createdAt)
    }

    method ChangePassword(hashed: HashedPassword)
      modifies this
      ensures Row() == old(Row()).(hashedPassword := hashed) && events == old(events)
    {
      hashedPassword := hashed;
    }

    /** Drains the recorded events. */
    method PullEvents() returns (pulled: seq<UserRegistered>)
      modifies this
      ensures pulled == old(events) && events == [] && Row() == old(Row())
    {
      pulled := events;
      events := [];
    }
  }

  class EventDispatcher {
    var dispatched: seq<UserRegistered>

    constructor ()
      ensures dispatched == []
    {
      dispatched := [];
    }

    method Dispatch(batch: seq<UserRegistered>)
      modifies this
      ensures dispatched == old(dispatched) + batch
    {
      dispatched := dispatched + batch;
    }
  }
}
