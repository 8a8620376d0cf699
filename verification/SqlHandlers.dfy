/** The five command handlers over the SQL unit of work, each proved to be the atomic step of Commands. Awaiting is
    sequencing here: one handler runs at a time. */
module SqlHandlers {
  import opened Wrappers
  import opened Uuids
  import opened Rows
  import opened Emails
  import opened Jwt
  import opened Ledger
  import opened Commands
  import opened Entities
  import opened SqlStore

  lemma OneToken(rows: TokenTable, row: TokenRow)
    ensures InsertTokens(rows, [row]) == rows[row.jti := row] && Jtis([row]) == [row.jti]
  {
    assert [row][..0] == [];
    assert InsertTokens(rows, [row][..0]) == rows && Jtis([row][..0]) == [];
  }

  lemma OneUser(users: UserTable, row: UserRow)
    ensures InsertUsers(users, [row]) == users[row.id := row] && UserIds([row]) == [row.id]
  {
    assert [row][..0] == [];
    assert InsertUsers(users, [row][..0]) == users && UserIds([row][..0]) == [];
  }

  /** Committing at most one new token record, with a new id, violates nothing. */
  lemma CommitsToken(uow: SqlUnitOfWork, row: TokenRow)
    requires uow.newUsers == [] && UniqueEmails(uow.SeenUsers())
    requires uow.newTokens == [] || (uow.newTokens == [row] && row.jti !in uow.SeenTokens())
    ensures !uow.ViolatesKey() && !uow.ViolatesEmail()
    ensures uow.Flushed() == Database(uow.SeenUsers(),
      if uow.newTokens == [] then Ledger(uow.SeenTokens(), uow.db.ledger.log)
      else Ledger(uow.SeenTokens()[row.jti := row], uow.db.ledger.log + [row.jti]))
  {
    OneToken(uow.SeenTokens(), row);
    assert uow.db.ledger.log + [] == uow.db.ledger.log;
  }

  lemma CommitsUser(uow: SqlUnitOfWork, row: UserRow)
    requires uow.newUsers == [row] && row.id !in uow.SeenUsers() && uow.newTokens == []
    requires UniqueEmails(uow.SeenUsers()) && forall u | u in uow.SeenUsers() :: uow.SeenUsers()[u].email != row.email
    ensures !uow.ViolatesKey() && !uow.ViolatesEmail()
    ensures uow.Flushed() == Database(uow.SeenUsers()[row.id := row], Ledger(uow.SeenTokens(), uow.db.ledger.log))
  {
    OneUser(uow.SeenUsers(), row);
    assert uow.db.ledger.log + [] == uow.db.ledger.log;
  }

  lemma CleanSees(uow: SqlUnitOfWork)
    requires uow.Clean()
    ensures uow.SeenUsers() == uow.db.users && uow.SeenTokens() == uow.db.ledger.rows
  {
  }

  method CreateUser(uow: SqlUnitOfWork, events: EventDispatcher, rawEmail: string, password: string, d: Draw)
    returns (outcome: Outcome)
    requires uow.Clean() && UsersValid(uow.db.users) && Fresh(uow.db, d)
    modifies uow, events
    ensures var r := RegisterReply(old(uow.db), rawEmail, password, d);
      && outcome == r.outcome
      && uow.db == Settled(old(uow.db), r)
      && events.dispatched == old(events.dispatched) +
           if r.users.Joined? then [UserRegistered(d.id, r.users.user.email, d.at.now)] else []
  {
    hide Email;
    CleanSees(uow);
    var email := Email(rawEmail);
    if email.None? {
      return Failed(ValidationFailed);
    }
    var exist := uow.ExistsByEmail(email.value);
    if exist {
      return Failed(EmailAlreadyExists);
    }
    var user := new User.Create(d.id, email.value, HashedPassword(d.salt, password), d.at.now);
    uow.AddUser(user);
    CommitsUser(uow, user.Row());
    var result := uow.Commit();
    if result.EmailViolation? {
      return Failed(EmailAlreadyExists);
    }
    var pulled := user.PullEvents();
    events.Dispatch(pulled);
    return Registered(View(user.Row()));
  }

  /** Issues a token pair, adds the refresh token's record to the family and commits. */
  method IssueAndCommit(uow: SqlUnitOfWork, cfg: Settings, user: Uuid, family: Uuid, d: Draw) returns (pair: TokenPair)
    requires UniqueEmails(uow.SeenUsers()) && d.id !in uow.SeenTokens()
    requires uow.newUsers == [] && uow.newTokens == []
    modifies uow
    ensures pair == Pair(cfg, user, d)
    ensures uow.db == Database(old(uow.SeenUsers()),
      Ledger(old(uow.SeenTokens())[d.id := NewRow(cfg, user, family, d)], old(uow.db).ledger.log + [d.id]))
  {
    hide Text;
    var subject := Text(user);
    var issued := CreateRefresh(cfg, subject, d.id, d.at.issue);
    var record := new RefreshTokenRecord(TokenRow(d.id, user, family, issued.expiresAt, None));
    AddAndCommit(uow, record);
    pair := TokenPair(CreateAccess(cfg, subject, d.accessId, d.at.access), issued.token);
  }

  /** Adds a record and commits. */
  method AddAndCommit(uow: SqlUnitOfWork, record: RefreshTokenRecord)
    requires UniqueEmails(uow.SeenUsers()) && record.jti !in uow.SeenTokens()
    requires uow.newUsers == [] && uow.newTokens == []
    modifies uow
    ensures uow.db == Database(old(uow.SeenUsers()),
      Ledger(old(uow.SeenTokens())[record.jti := old(record.Row())], old(uow.db).ledger.log + [record.jti]))
  {
    uow.AddToken(record);
    CommitsToken(uow, record.Row());
    var result := uow.Commit();
  }

  /** Revokes a family in one UPDATE and commits. */
  method EndFamilyAndCommit(uow: SqlUnitOfWork, family: Uuid, at: Time)
    requires UniqueEmails(uow.SeenUsers()) && uow.newUsers == [] && uow.newTokens == []
    modifies uow
    ensures uow.db == Database(old(uow.SeenUsers()),
      Ledger(RevokeFamily(old(uow.SeenTokens()), family, at), old(uow.db).ledger.log))
  {
    uow.RevokeTokensOfFamily(family, at);
    CommitsToken(uow, TokenRow(0, 0, 0, 0, None));
    var result := uow.Commit();
  }

  /** Revokes every record of a user in one UPDATE and commits. */
  method EndUserAndCommit(uow: SqlUnitOfWork, user: Uuid, at: Time)
    requires UniqueEmails(uow.SeenUsers()) && uow.newUsers == [] && uow.newTokens == []
    modifies uow
    ensures uow.db == Database(old(uow.SeenUsers()),
      Ledger(RevokeUser(old(uow.SeenTokens()), user, at), old(uow.db).ledger.log))
  {
    uow.RevokeAllForUser(user, at);
    CommitsToken(uow, TokenRow(0, 0, 0, 0, None));
    var result := uow.Commit();
  }

  /** Revokes the loaded record and copies the revocation onto its row. */
  method RevokePresented(uow: SqlUnitOfWork, record: RefreshTokenRecord, at: Time) returns (found: bool)
    requires record.jti in uow.SeenTokens() && uow.SeenTokens()[record.jti] == record.Row()
    modifies uow`trackedTokens, record
    ensures found && uow.SeenTokens() == Update(old(uow.SeenTokens()), record.jti, at)
  {
    ghost var row := record.Row();
    record.Revoke(at);
    assert row.(revokedAt := record.revokedAt) == row.Revoked(at);
    found := uow.UpdateToken(record);
  }

  method LogIn(uow: SqlUnitOfWork, cfg: Settings, rawEmail: string, password: string, d: Draw) returns (outcome: Outcome)
    requires uow.Clean() && UsersValid(uow.db.users) && Fresh(uow.db, d)
    modifies uow
    ensures var r := LoginReply(cfg, old(uow.db), rawEmail, password, d);
      && outcome == r.outcome
      && uow.db == Settled(old(uow.db), r)
  {
    hide Email, Text, Pair, CreateRefresh;
    CleanSees(uow);
    var email := Email(rawEmail);
    if email.None? {
      return Failed(InvalidCredentials);
    }
    var user := uow.GetUserByEmail(email.value);
    if user == null || !user.isActive {
      return Failed(InvalidCredentials);
    }
    if !Verify(password, user.hashedPassword) {
      return Failed(InvalidCredentials);
    }
    var pair := IssueAndCommit(uow, cfg, user.id, d.family, d);
    return Issued(pair);
  }

  method RefreshTokens(uow: SqlUnitOfWork, cfg: Settings, token: Token, d: Draw) returns (outcome: Outcome)
    requires uow.Clean() && UsersValid(uow.db.users) && Keyed(uow.db.ledger) && Fresh(uow.db, d)
    modifies uow
    ensures var r := RefreshReply(cfg, old(uow.db), token, d);
      && outcome == r.outcome
      && uow.db == Settled(old(uow.db), r)
  {
    hide Decode, RotateReply;
    CleanSees(uow);
    var decoded := Decode(cfg, token, d.at.decode);
    if decoded.Failure? {
      return Failed(decoded.error);
    }
    var payload := decoded.value;
    if payload.tokenType != TokenType.Refresh {
      return Failed(InvalidToken);
    }
    var record := uow.GetByJti(payload.tokenId);
    if record == null {
      return Failed(InvalidToken);
    }
    ghost var db, row := uow.db, uow.db.ledger.rows[payload.tokenId];
    assert record.Row() == row;
    if record.IsRevoked() {
      EndFamilyAndCommit(uow, record.familyId, d.at.now);
      return Failed(InvalidToken);
    }
    if record.expiresAt <= d.at.now {
      return Failed(TokenExpired);
    }
    outcome := Rotate(uow, cfg, payload, record, d);
  }

  /** The rotation itself, once the presented record is known to be live. */
  method Rotate(uow: SqlUnitOfWork, cfg: Settings, payload: Payload, record: RefreshTokenRecord, d: Draw)
    returns (outcome: Outcome)
    requires UsersValid(uow.db.users) && Fresh(uow.db, d)
    requires uow.SeenUsers() == uow.db.users && uow.SeenTokens() == uow.db.ledger.rows
    requires uow.newUsers == [] && uow.newTokens == []
    requires record.jti == payload.tokenId && record.jti in uow.db.ledger.rows
    requires record.Row() == uow.db.ledger.rows[record.jti] && !record.IsRevoked()
    modifies uow, record
    ensures var r := RotateReply(cfg, old(uow.db), payload, old(record.Row()), d);
      outcome == r.outcome && uow.db == Settled(old(uow.db), r)
  {
    hide Parse, Pair, NewRow;
    var owner := Parse(payload.subject);
    if owner.None? {
      return Failed(InvalidToken);
    }
    var user := uow.GetUserById(owner.value);
    if user == null || !user.isActive {
      return Failed(InvalidToken);
    }
    var pair := RotateAndCommit(uow, cfg, record, user.id, d);
    return Issued(pair);
  }

  /** Revokes the presented record, adds its successor and commits. */
  method RotateAndCommit(uow: SqlUnitOfWork, cfg: Settings, record: RefreshTokenRecord, user: Uuid, d: Draw)
    returns (pair: TokenPair)
    requires UniqueEmails(uow.SeenUsers()) && d.id !in uow.SeenTokens() && uow.newUsers == [] && uow.newTokens == []
    requires record.jti in uow.SeenTokens() && uow.SeenTokens()[record.jti] == record.Row()
    modifies uow, record
    ensures pair == Pair(cfg, user, d)
    ensures uow.db == Database(old(uow.SeenUsers()),
      Apply(Ledger(old(uow.SeenTokens()), old(uow.db).ledger.log),
            Rotated(record.jti, d.at.now, NewRow(cfg, user, record.familyId, d))))
  {
    hide Pair, CreateRefresh;
    var found := RevokePresented(uow, record, d.at.now);
    pair := IssueAndCommit(uow, cfg, user, record.familyId, d);
  }

  method LogOut(uow: SqlUnitOfWork, cfg: Settings, token: Token, d: Draw) returns (outcome: Outcome)
    requires uow.Clean() && UsersValid(uow.db.users)
    modifies uow
    ensures var r := LogoutReply(cfg, old(uow.db), token, d);
      && outcome == r.outcome
      && uow.db == Settled(old(uow.db), r)
  {
    hide Decode;
    CleanSees(uow);
    var decoded := Decode(cfg, token, d.at.decode);
    if decoded.Failure? {
      return Failed(decoded.error);
    }
    var payload := decoded.value;
    if payload.tokenType != TokenType.Refresh {
      return Failed(InvalidToken);
    }
    var record := uow.GetByJti(payload.tokenId);
    if record == null {
      return Completed;
    }
    ghost var db, row := uow.db, uow.db.ledger.rows[payload.tokenId];
    assert record.Row() == row;
    EndFamilyAndCommit(uow, record.familyId, d.at.now);
    return Completed;
  }

  method ChangeUserPassword(uow: SqlUnitOfWork, userId: Uuid, current: string, next: string, d: Draw)
    returns (outcome: Outcome)
    requires uow.Clean() && UsersValid(uow.db.users)
    modifies uow
    ensures var r := ChangePasswordReply(old(uow.db), userId, current, next, d);
      && outcome == r.outcome
      && uow.db == Settled(old(uow.db), r)
  {
    hide Verify, InsertUsers, InsertTokens;
    CleanSees(uow);
    ghost var db := uow.db;
    var user := uow.GetUserById(userId);
    if user == null {
      return Failed(UserNotFound);
    }
    if !Verify(current, user.hashedPassword) {
      return Failed(InvalidCredentials);
    }
    user.ChangePassword(HashedPassword(d.salt, next));
    var found := uow.UpdateUser(user);
    if !found {
      return Failed(UserNotFound);
    }
    assert user.Row() == db.users[userId].(hashedPassword := HashedPassword(d.salt, next));
    assert uow.SeenUsers() == ApplyUsers(db.users, Rehashed(userId, HashedPassword(d.salt, next)));
    UsersStayValid(db.users, Rehashed(userId, HashedPassword(d.salt, next)));
    EndUserAndCommit(uow, user.id, d.at.now);
    return Completed;
  }
}
