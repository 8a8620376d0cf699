/** The five command handlers over the in-memory unit of work: the same atomic steps of Commands, although a loaded
    entity is the stored one and nothing is ever rolled back. */
module FakeHandlers {
  import opened Wrappers
  import opened Uuids
  import opened Rows
  import opened Emails
  import opened Jwt
  import opened Ledger
  import opened Commands
  import opened Entities
  import opened FakeStore

  /** A handler commits once if its command has an effect, and not at all otherwise. */
  function Commits(r: Reply): nat {
    if r.users.Kept? && r.tokens.Nothing? then 0 else 1
  }

  lemma FindsByEmail(uow: FakeUnitOfWork, email: string, user: User?)
    requires uow.Valid() && UniqueEmails(uow.UserRows())
    requires user == null ==> forall u | u in uow.users :: uow.users[u].email != email
    requires user != null ==> user.email == email && user.id in uow.users && uow.users[user.id] == user
    ensures UserByEmail(uow.UserRows(), email) == if user == null then None else Some(user.Row())
  {
    var rows := uow.UserRows();
    assert forall u | u in rows :: rows[u].email == uow.users[u].email;
    var found := UserByEmail(rows, email);
    if user == null {
      assert found.None?;
    } else {
      assert rows[user.id].email == email;
      var id :| id in rows && rows[id] == found.value && rows[id].email == email;
      assert id == user.id;
    }
  }

  method CreateUser(uow: FakeUnitOfWork, events: EventDispatcher, rawEmail: string, password: string, d: Draw)
    returns (outcome: Outcome)
    requires uow.Valid() && UsersValid(uow.Db().users) && Fresh(uow.Db(), d)
    modifies uow`users, uow`userKeys, uow`commits, events
    ensures uow.Valid() && uow.records == old(uow.records) && fresh(uow.users.Values - old(uow.users.Values))
    ensures var r := RegisterReply(old(uow.Db()), rawEmail, password, d);
      && outcome == r.outcome
      && uow.Db() == Settled(old(uow.Db()), r) && uow.commits == old(uow.commits) + Commits(r)
      && events.dispatched == old(events.dispatched) +
           if r.users.Joined? then [UserRegistered(d.id, r.users.user.email, d.at.now)] else []
  {
    hide Email;
    var email := Email(rawEmail);
    if email.None? {
      return Failed(ValidationFailed);
    }
    var existing := uow.GetUserByEmail(email.value);
    FindsByEmail(uow, email.value, existing);
    if existing != null {
      return Failed(EmailAlreadyExists);
    }
    outcome := Join(uow, events, email.value, password, d);
  }

  /** Creates, stores and announces the user, once the address is known to be free. */
  method Join(uow: FakeUnitOfWork, events: EventDispatcher, address: string, password: string, d: Draw)
    returns (outcome: Outcome)
    requires uow.Valid() && d.id !in uow.users
    modifies uow`users, uow`userKeys, uow`commits, events
    ensures uow.commits == old(uow.commits) + 1
    ensures uow.Valid() && uow.records == old(uow.records) && fresh(uow.users.Values - old(uow.users.Values))
    ensures var user := UserRow(d.id, address, HashedPassword(d.salt, password), true, d.at.now);
      && outcome == Registered(View(user))
      && uow.Db() == Database(old(uow.Db()).users[d.id := user], old(uow.Db()).ledger)
      && events.dispatched == old(events.dispatched) + [UserRegistered(d.id, address, d.at.now)]
  {
    var user := new User.Create(d.id, address, HashedPassword(d.salt, password), d.at.now);
    assert user !in uow.users.Values;
    AddAndDispatch(uow, events, user);
    return Registered(View(user.Row()));
  }

  /** Draining the stored user's events changes no stored row. */
  method DispatchPulled(uow: FakeUnitOfWork, events: EventDispatcher, user: User)
    requires uow.Valid()
    modifies user, events
    ensures uow.Db() == old(uow.Db()) && user.Row() == old(user.Row())
    ensures events.dispatched == old(events.dispatched) + old(user.events)
  {
    var pulled := user.PullEvents();
    assert uow.UserRows() == old(uow.UserRows());
    events.Dispatch(pulled);
  }

  /** Stores the user, commits, and then dispatches its events. */
  method AddAndDispatch(uow: FakeUnitOfWork, events: EventDispatcher, user: User)
    requires uow.Valid() && user.id !in uow.users && user !in uow.users.Values
    modifies uow`users, uow`userKeys, uow`commits, user, events
    ensures uow.commits == old(uow.commits) + 1
    ensures uow.Valid() && uow.users == old(uow.users)[user.id := user] && user.Row() == old(user.Row())
    ensures uow.users.Values <= old(uow.users.Values) + {user}
    ensures uow.Db() == Database(old(uow.Db()).users[user.id := old(user.Row())], old(uow.Db()).ledger)
    ensures events.dispatched == old(events.dispatched) + old(user.events)
  {
    AddAndCommit(uow, user);
    DispatchPulled(uow, events, user);
  }

  method AddAndCommit(uow: FakeUnitOfWork, user: User)
    requires uow.Valid() && user.id !in uow.users && user !in uow.users.Values
    modifies uow`users, uow`userKeys, uow`commits
    ensures uow.commits == old(uow.commits) + 1
    ensures uow.Valid() && uow.records == old(uow.records) && uow.users == old(uow.users)[user.id := user]
    ensures uow.Db() == Database(old(uow.UserRows())[user.id := user.Row()], old(uow.Db()).ledger)
    ensures user.Row() == old(user.Row()) && user.events == old(user.events)
  {
    uow.PutUser(user);
    uow.Commit();
  }

  /** Revokes a family record by record and commits. */
  method EndFamilyAndCommit(uow: FakeUnitOfWork, family: Uuid, at: Time)
    requires uow.Valid()
    modifies uow`commits, uow.records.Values
    ensures uow.commits == old(uow.commits) + 1
    ensures uow.Valid()
    ensures uow.Db() == Database(old(uow.Db()).users, Apply(old(uow.Db()).ledger, FamilyEnded(family, at)))
  {
    uow.RevokeTokensOfFamily(family, at);
    uow.Commit();
  }

  /** Revokes a user's records one by one and commits. */
  method EndUserAndCommit(uow: FakeUnitOfWork, user: Uuid, at: Time)
    requires uow.Valid()
    modifies uow`commits, uow.records.Values
    ensures uow.commits == old(uow.commits) + 1
    ensures uow.Valid()
    ensures uow.Db() == Database(old(uow.Db()).users, Apply(old(uow.Db()).ledger, UserEnded(user, at)))
  {
    uow.RevokeAllForUser(user, at);
    uow.Commit();
  }

  method LogIn(uow: FakeUnitOfWork, cfg: Settings, rawEmail: string, password: string, d: Draw) returns (outcome: Outcome)
    requires uow.Valid() && UsersValid(uow.Db().users) && Fresh(uow.Db(), d)
    modifies uow`records, uow`recordKeys, uow`commits
    ensures uow.Valid() && uow.users == old(uow.users) && fresh(uow.records.Values - old(uow.records.Values))
    ensures var r := LoginReply(cfg, old(uow.Db()), rawEmail, password, d);
      outcome == r.outcome && uow.Db() == Settled(old(uow.Db()), r) && uow.commits == old(uow.commits) + Commits(r)
  {
    hide Email, Text, Pair, CreateRefresh;
    var email := Email(rawEmail);
    if email.None? {
      return Failed(InvalidCredentials);
    }
    var user := uow.GetUserByEmail(email.value);
    FindsByEmail(uow, email.value, user);
    if user == null || !user.isActive {
      return Failed(InvalidCredentials);
    }
    if !Verify(password, user.hashedPassword) {
      return Failed(InvalidCredentials);
    }
    var pair := IssueAndCommit(uow, cfg, user.id, d.family, d);
    return Issued(pair);
  }

  /** Issues a token pair, stores the refresh token's record in the family and commits. */
  method IssueAndCommit(uow: FakeUnitOfWork, cfg: Settings, user: Uuid, family: Uuid, d: Draw) returns (pair: TokenPair)
    requires uow.Valid() && d.id !in uow.records
    modifies uow`records, uow`recordKeys, uow`commits
    ensures uow.commits == old(uow.commits) + 1
    ensures uow.Valid() && uow.users == old(uow.users) && fresh(uow.records.Values - old(uow.records.Values))
    ensures pair == Pair(cfg, user, d)
    ensures uow.UserRows() == old(uow.UserRows())
    ensures uow.TokenRows() == old(uow.TokenRows())[d.id := NewRow(cfg, user, family, d)]
    ensures uow.recordKeys == old(uow.recordKeys) + [d.id]
  {
    hide Text;
    var subject := Text(user);
    var issued := CreateRefresh(cfg, subject, d.id, d.at.issue);
    var record := new RefreshTokenRecord(TokenRow(d.id, user, family, issued.expiresAt, None));
    uow.PutToken(record);
    uow.Commit();
    pair := TokenPair(CreateAccess(cfg, subject, d.accessId, d.at.access), issued.token);
  }

  method RefreshTokens(uow: FakeUnitOfWork, cfg: Settings, token: Token, d: Draw) returns (outcome: Outcome)
    requires uow.Valid() && UsersValid(uow.Db().users) && Fresh(uow.Db(), d)
    modifies uow`records, uow`recordKeys, uow`commits, uow.records.Values
    ensures uow.Valid() && uow.users == old(uow.users) && fresh(uow.records.Values - old(uow.records.Values))
    ensures var r := RefreshReply(cfg, old(uow.Db()), token, d);
      outcome == r.outcome && uow.Db() == Settled(old(uow.Db()), r) && uow.commits == old(uow.commits) + Commits(r)
  {
    hide Decode, RotateReply;
    var decoded := Decode(cfg, token, d.at.decode);
    if decoded.Failure? {
      return Failed(decoded.error);
    }
    var payload := decoded.value;
    if payload.tokenType != TokenType.Refresh {
      return Failed(InvalidToken);
    }
    var record := uow.GetByJti(payload.tokenId);
    if record == null {
      return Failed(InvalidToken);
    }
    if record.IsRevoked() {
      EndFamilyAndCommit(uow, record.familyId, d.at.now);
      return Failed(InvalidToken);
    }
    if record.expiresAt <= d.at.now {
      return Failed(TokenExpired);
    }
    outcome := Rotate(uow, cfg, payload, record, d);
  }

  /** The rotation itself, once the presented record is known to be live. */
  method Rotate(uow: FakeUnitOfWork, cfg: Settings, payload: Payload, record: RefreshTokenRecord, d: Draw)
    returns (outcome: Outcome)
    requires uow.Valid() && UsersValid(uow.Db().users) && Fresh(uow.Db(), d)
    requires payload.tokenId in uow.records && uow.records[payload.tokenId] == record && !record.IsRevoked()
    modifies uow`records, uow`recordKeys, uow`commits, record
    ensures uow.Valid() && uow.users == old(uow.users) && fresh(uow.records.Values - old(uow.records.Values))
    ensures var r := RotateReply(cfg, old(uow.Db()), payload, old(record.Row()), d);
      outcome == r.outcome && uow.Db() == Settled(old(uow.Db()), r) && uow.commits == old(uow.commits) + Commits(r)
  {
    hide Parse, Pair, NewRow;
    var owner := Parse(payload.subject);
    if owner.None? {
      return Failed(InvalidToken);
    }
    var user := uow.GetUserById(owner.value);
    if user == null || !user.isActive {
      return Failed(InvalidToken);
    }
    var pair := RotateAndCommit(uow, cfg, record, user.id, d);
    return Issued(pair);
  }

  /** Revokes the presented record, adds its successor and commits. */
  method RotateAndCommit(uow: FakeUnitOfWork, cfg: Settings, record: RefreshTokenRecord, user: Uuid, d: Draw)
    returns (pair: TokenPair)
    requires uow.Valid() && d.id !in uow.records
    requires record.jti in uow.records && uow.records[record.jti] == record
    modifies uow`records, uow`recordKeys, uow`commits, record
    ensures uow.commits == old(uow.commits) + 1
    ensures uow.Valid() && uow.users == old(uow.users) && fresh(uow.records.Values - old(uow.records.Values))
    ensures pair == Pair(cfg, user, d)
    ensures uow.Db() == Database(old(uow.Db()).users,
      Apply(old(uow.Db()).ledger, Rotated(record.jti, d.at.now, NewRow(cfg, user, record.familyId, d))))
  {
    hide Pair, CreateRefresh;
    RevokePresented(uow, record, d.at.now);
    pair := IssueAndCommit(uow, cfg, user, record.familyId, d);
  }

  /** Revoking the loaded record revokes the stored one; storing it again changes nothing more. */
  method RevokePresented(uow: FakeUnitOfWork, record: RefreshTokenRecord, at: Time)
    requires uow.Valid() && record.jti in uow.records && uow.records[record.jti] == record
    modifies uow`records, uow`recordKeys, record
    ensures uow.Valid() && uow.records == old(uow.records) && uow.recordKeys == old(uow.recordKeys)
    ensures uow.UserRows() == old(uow.UserRows())
    ensures uow.TokenRows() == Update(old(uow.TokenRows()), record.jti, at)
  {
    record.Revoke(at);
    assert uow.TokenRows() == Update(old(uow.TokenRows()), record.jti, at);
    uow.PutToken(record);
  }

  method LogOut(uow: FakeUnitOfWork, cfg: Settings, token: Token, d: Draw) returns (outcome: Outcome)
    requires uow.Valid()
    modifies uow`records, uow`recordKeys, uow`commits, uow.records.Values
    ensures uow.Valid() && uow.users == old(uow.users) && uow.records == old(uow.records)
    ensures var r := LogoutReply(cfg, old(uow.Db()), token, d);
      outcome == r.outcome && uow.Db() == Settled(old(uow.Db()), r) && uow.commits == old(uow.commits) + Commits(r)
  {
    hide Decode;
    var decoded := Decode(cfg, token, d.at.decode);
    if decoded.Failure? {
      return Failed(decoded.error);
    }
    var payload := decoded.value;
    if payload.tokenType != TokenType.Refresh {
      return Failed(InvalidToken);
    }
    var record := uow.GetByJti(payload.tokenId);
    if record == null {
      return Completed;
    }
    EndFamilyAndCommit(uow, record.familyId, d.at.now);
    return Completed;
  }

  method ChangeUserPassword(uow: FakeUnitOfWork, userId: Uuid, current: string, next: string, d: Draw)
    returns (outcome: Outcome)
    requires uow.Valid() && UsersValid(uow.Db().users)
    modifies uow`users, uow`userKeys, uow`commits, uow.users.Values, uow.records.Values
    ensures uow.Valid() && uow.users == old(uow.users) && uow.records == old(uow.records)
    ensures var r := ChangePasswordReply(old(uow.Db()), userId, current, next, d);
      outcome == r.outcome && uow.Db() == Settled(old(uow.Db()), r) && uow.commits == old(uow.commits) + Commits(r)
  {
    var user := uow.GetUserById(userId);
    if user == null {
      return Failed(UserNotFound);
    }
    if !Verify(current, user.hashedPassword) {
      return Failed(InvalidCredentials);
    }
    ChangeStored(uow, user, HashedPassword(d.salt, next));
    EndUserAndCommit(uow, user.id, d.at.now);
    return Completed;
  }

  /** Changing the loaded user changes the stored one; storing it again changes nothing more. */
  method ChangeStored(uow: FakeUnitOfWork, user: User, hashed: HashedPassword)
    requires uow.Valid() && user.id in uow.users && uow.users[user.id] == user
    modifies uow`users, uow`userKeys, user
    ensures uow.Valid() && uow.users == old(uow.users) && uow.TokenRows() == old(uow.TokenRows())
    ensures uow.UserRows() == ApplyUsers(old(uow.UserRows()), Rehashed(user.id, hashed))
  {
    user.ChangePassword(hashed);
    assert uow.UserRows() == ApplyUsers(old(uow.UserRows()), Rehashed(user.id, hashed));
    uow.PutUser(user);
  }
}
