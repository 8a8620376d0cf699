/** The five commands as functions on the database, each run as one atomic step: the reference that both
    implementations of the stores are proved against. Clock readings, new ids and salts are inputs. */
module Commands {
  import opened Wrappers
  import opened Uuids
  import opened Rows
  import opened Emails
  import opened Jwt
  import opened Ledger

  datatype Database = Database(users: UserTable, ledger: Ledger)

  /** The successive clock readings of one command. */
  datatype Readings = Readings(decode: Time, now: Time, issue: Time, access: Time)

  /** What the outside world supplies to one command: clock readings, uuid4 results and a salt. `id` becomes the id of
      a new user or the jti of a new refresh token. */
  datatype Draw = Draw(at: Readings, id: Uuid, family: Uuid, accessId: Uuid, salt: string)

  datatype Command =
    | Register(email: string, password: string)
    | Login(email: string, password: string)
    | Refresh(token: Token)
    | Logout(token: Token)
    | ChangePassword(user: Uuid, current: string, next: string)

  datatype TokenPair = TokenPair(access: Token, refresh: Token)

  datatype Outcome = Failed(error: Error) | Registered(view: UserView) | Issued(pair: TokenPair) | Completed

  /** The effect of a command on the users table. */
  datatype UserEffect = Kept | Joined(user: UserRow) | Rehashed(id: Uuid, hashedPassword: HashedPassword)

  function ApplyUsers(users: UserTable, e: UserEffect): UserTable {
    match e
    case Kept => users
    case Joined(user) => users[user.id := user]
    case Rehashed(id, hashed) => if id in users then users[id := users[id].(hashedPassword := hashed)] else users
  }

  /** The outcome of a command and its effects on the two tables. */
  datatype Reply = Reply(outcome: Outcome, users: UserEffect, tokens: Effect)

  ghost function UserByEmail(users: UserTable, email: string): (u: Option<UserRow>)
    ensures u.Some? ==> exists id :: id in users && users[id] == u.value && users[id].email == email
    ensures u.None? ==> forall id | id in users :: users[id].email != email
  {
    if exists id :: id in users && users[id].email == email then
      var id :| id in users && users[id].email == email;
      Some(users[id])
    else None
  }

  function Refuse(db: Database, e: Error): Reply {
    Reply(Failed(e), Kept, Nothing)
  }

  ghost function RegisterReply(db: Database, email: string, password: string, d: Draw): Reply {
    match Email(email)
    case None => Refuse(db, ValidationFailed)
    case Some(address) =>
      if UserByEmail(db.users, address).Some? then Refuse(db, EmailAlreadyExists)
      else
        var user := UserRow(d.id, address, HashedPassword(d.salt, password), true, d.at.now);
        Reply(Registered(View(user)), Joined(user), Nothing)
  }

  function Pair(cfg: Settings, user: Uuid, d: Draw): TokenPair {
    TokenPair(CreateAccess(cfg, Text(user), d.accessId, d.at.access), CreateRefresh(cfg, Text(user), d.id, d.at.issue).token)
  }

  function NewRow(cfg: Settings, user: Uuid, family: Uuid, d: Draw): TokenRow {
    TokenRow(d.id, user, family, CreateRefresh(cfg, Text(user), d.id, d.at.issue).expiresAt, None)
  }

  ghost function LoginReply(cfg: Settings, db: Database, email: string, password: string, d: Draw): Reply {
    match Email(email)
    case None => Refuse(db, InvalidCredentials)
    case Some(address) =>
      var user := UserByEmail(db.users, address);
      if user.None? || !user.value.isActive || !Verify(password, user.value.hashedPassword)
      then Refuse(db, InvalidCredentials)
      else Reply(Issued(Pair(cfg, user.value.id, d)), Kept, Opened(NewRow(cfg, user.value.id, d.family, d)))
  }

  /** Decodes a presented token and insists that it is a refresh token. */
  function Presented(cfg: Settings, token: Token, now: Time): Result<Payload, Error> {
    match Decode(cfg, token, now)
    case Failure(e) => Failure(e)
    case Success(payload) =>
      if payload.tokenType != TokenType.Refresh then Failure(InvalidToken) else Success(payload)
  }

  function RefreshReply(cfg: Settings, db: Database, token: Token, d: Draw): Reply {
    match Presented(cfg, token, d.at.decode)
    case Failure(e) => Refuse(db, e)
    case Success(payload) =>
      if payload.tokenId !in db.ledger.rows then Refuse(db, InvalidToken)
      else
        var row := db.ledger.rows[payload.tokenId];
        if row.IsRevoked() then Reply(Failed(InvalidToken), Kept, FamilyEnded(row.familyId, d.at.now))
        else if row.expiresAt <= d.at.now then Refuse(db, TokenExpired)
        else RotateReply(cfg, db, payload, row, d)
  }

  function RotateReply(cfg: Settings, db: Database, payload: Payload, row: TokenRow, d: Draw): Reply {
    var owner := Parse(payload.subject);
    if owner.None? || owner.value !in db.users || !db.users[owner.value].isActive then Refuse(db, InvalidToken)
    else
      var user := db.users[owner.value].id;
      Reply(Issued(Pair(cfg, user, d)), Kept, Rotated(payload.tokenId, d.at.now, NewRow(cfg, user, row.familyId, d)))
  }

  function LogoutReply(cfg: Settings, db: Database, token: Token, d: Draw): Reply {
    match Presented(cfg, token, d.at.decode)
    case Failure(e) => Refuse(db, e)
    case Success(payload) =>
      if payload.tokenId !in db.ledger.rows then Reply(Completed, Kept, Nothing)
      else Reply(Completed, Kept, FamilyEnded(db.ledger.rows[payload.tokenId].familyId, d.at.now))
  }

  function ChangePasswordReply(db: Database, user: Uuid, current: string, next: string, d: Draw): Reply {
    if user !in db.users then Refuse(db, UserNotFound)
    else if !Verify(current, db.users[user].hashedPassword) then Refuse(db, InvalidCredentials)
    else
      Reply(Completed, Rehashed(user, HashedPassword(d.salt, next)), UserEnded(db.users[user].id, d.at.now))
  }

  ghost function Run(cfg: Settings, db: Database, c: Command, d: Draw): Reply {
    match c
    case Register(email, password) => RegisterReply(db, email, password, d)
    case Login(email, password) => LoginReply(cfg, db, email, password, d)
    case Refresh(token) => RefreshReply(cfg, db, token, d)
    case Logout(token) => LogoutReply(cfg, db, token, d)
    case ChangePassword(user, current, next) => ChangePasswordReply(db, user, current, next, d)
  }

  /** The database after a reply. */
  function Settled(db: Database, r: Reply): Database {
    Database(ApplyUsers(db.users, r.users), Apply(db.ledger, r.tokens))
  }

  ghost function After(cfg: Settings, db: Database, c: Command, d: Draw): Database {
    Settled(db, Run(cfg, db, c, d))
  }

  /** uuid4 returns values not used before. */
  ghost predicate Fresh(db: Database, d: Draw) {
    d.id !in db.users && d.id !in db.ledger.rows && d.family !in Families(db.ledger.rows)
  }

  ghost predicate NormalEmails(users: UserTable) {
    forall u | u in users :: Email(users[u].email) == Some(users[u].email)
  }

  ghost predicate UniqueEmails(users: UserTable) {
    forall u, v | u in users && v in users && users[u].email == users[v].email :: u == v
  }

  ghost predicate UsersValid(users: UserTable) {
    (forall u | u in users :: users[u].id == u) && UniqueEmails(users)
  }

  ghost predicate PermittedUser(users: UserTable, e: UserEffect) {
    e.Joined? ==> e.user.id !in users && forall u | u in users :: users[u].email != e.user.email
  }

  lemma UserEffectPermitted(cfg: Settings, db: Database, c: Command, d: Draw)
    requires d.id !in db.users
    ensures PermittedUser(db.users, Run(cfg, db, c, d).users)
    ensures Run(cfg, db, c, d).users.Joined? ==>
      c.Register? && Email(c.email) == Some(Run(cfg, db, c, d).users.user.email)
  {
    hide Email, Decode, Parse, Pair, NewRow, Verify;
  }

  /** Every permitted effect keeps user ids and the uniqueness of addresses, and changes no address. */
  lemma UsersStayValid(users: UserTable, e: UserEffect)
    requires UsersValid(users) && PermittedUser(users, e)
    ensures UsersValid(ApplyUsers(users, e))
    ensures forall u | u in users :: u in ApplyUsers(users, e) && ApplyUsers(users, e)[u].email == users[u].email
  {
  }

  /** Stored addresses stay in normal form: rebuilding an address from its row never fails and changes nothing. */
  lemma EmailsStayNormal(cfg: Settings, db: Database, c: Command, d: Draw)
    requires NormalEmails(db.users) && d.id !in db.users
    ensures NormalEmails(After(cfg, db, c, d).users)
  {
    var e := Run(cfg, db, c, d).users;
    UserEffectPermitted(cfg, db, c, d);
    if e.Joined? {
      NormalFormIsFixed(c.email);
    }
    JoinedNormal(db.users, e);
  }

  lemma JoinedNormal(users: UserTable, e: UserEffect)
    requires NormalEmails(users) && (e.Joined? ==> Email(e.user.email) == Some(e.user.email))
    ensures NormalEmails(ApplyUsers(users, e))
  {
    hide Email;
    var users' := ApplyUsers(users, e);
    forall u | u in users' ensures Email(users'[u].email) == Some(users'[u].email) {
      assert !e.Joined? || u != e.user.id ==> users'[u].email == users[u].email;
    }
  }

  /** The presented token exists and is revoked already. */
  predicate IsReplay(cfg: Settings, db: Database, token: Token, d: Draw) {
    var p := Presented(cfg, token, d.at.decode);
    p.Success? && p.value.tokenId in db.ledger.rows && db.ledger.rows[p.value.tokenId].IsRevoked()
  }

  /** All or nothing: a command that fails leaves the database unchanged, with one exception, the replay of a revoked
      refresh token, which ends exactly that token's family. */
  lemma AllOrNothing(cfg: Settings, db: Database, c: Command, d: Draw)
    requires Run(cfg, db, c, d).outcome.Failed?
    ensures After(cfg, db, c, d) ==
      if c.Refresh? && IsReplay(cfg, db, c.token, d) then
        var row := db.ledger.rows[Presented(cfg, c.token, d.at.decode).value.tokenId];
        db.(ledger := db.ledger.(rows := RevokeFamily(db.ledger.rows, row.familyId, d.at.now)))
      else db
  {
  }

  /** A login with a stored address succeeds exactly for the account's password and while the account is active. */
  lemma LoginIff(cfg: Settings, db: Database, user: Uuid, p: string, d: Draw)
    requires UniqueEmails(db.users) && user in db.users && Email(db.users[user].email) == Some(db.users[user].email)
    ensures LoginReply(cfg, db, db.users[user].email, p, d).outcome.Issued?
            <==> Verify(p, db.users[user].hashedPassword) && db.users[user].isActive
  {
    var found := UserByEmail(db.users, db.users[user].email);
    var id :| id in db.users && db.users[id] == found.value && db.users[id].email == db.users[user].email;
    assert id == user;
  }

  /** A registration succeeds exactly if the address is valid and no user has its normal form; the account is then open
      to that password and no other, under any spelling of the address. */
  lemma RegisterThenLogin(cfg: Settings, db: Database, email: string, password: string, d: Draw,
                          spelling: string, p: string, e: Draw)
    requires UsersValid(db.users) && d.id !in db.users
    ensures var r, address := RegisterReply(db, email, password, d), Email(email);
      && (r.outcome.Registered? <==> address.Some? && forall u | u in db.users :: db.users[u].email != address.value)
      && (r.outcome.Registered? && Email(spelling) == address ==>
            (LoginReply(cfg, Settled(db, r), spelling, p, e).outcome.Issued? <==> p == password))
  {
    hide Email, Pair, NewRow;
    var r := RegisterReply(db, email, password, d);
    if r.outcome.Registered? && Email(spelling) == Email(email) {
      var users := ApplyUsers(db.users, r.users);
      var address := Email(email).value;
      assert users[d.id].email == address;
      var found := UserByEmail(users, address);
      var id :| id in users && users[id] == found.value && users[id].email == address;
      assert id == d.id;
    }
  }

  /** A password change succeeds exactly for an existing user and the current password. */
  lemma ChangeIff(cfg: Settings, db: Database, c: Command, d: Draw)
    requires c.ChangePassword?
    ensures Run(cfg, db, c, d).outcome.Completed? <==>
      c.user in db.users && Verify(c.current, db.users[c.user].hashedPassword)
    ensures var after := After(cfg, db, c, d).users;
      && after.Keys == db.users.Keys
      && forall u | u in after :: after[u] ==
           if u == c.user && Run(cfg, db, c, d).outcome.Completed?
           then db.users[u].(hashedPassword := HashedPassword(d.salt, c.next)) else db.users[u]
  {
  }

  /** Which password opens the account after a successful change: the new one and no other. */
  lemma NewPasswordOnly(cfg: Settings, db: Database, c: Command, d: Draw, p: string, e: Draw)
    requires UsersValid(db.users)
    requires c.ChangePassword? && c.user in db.users && Email(db.users[c.user].email) == Some(db.users[c.user].email)
    requires Run(cfg, db, c, d).outcome.Completed?
    ensures Run(cfg, After(cfg, db, c, d), Login(db.users[c.user].email, p), e).outcome.Issued?
            <==> p == c.next && db.users[c.user].isActive
  {
    var db' := After(cfg, db, c, d);
    assert db'.users == ApplyUsers(db.users, Rehashed(c.user, HashedPassword(d.salt, c.next)));
    UsersStayValid(db.users, Rehashed(c.user, HashedPassword(d.salt, c.next)));
    LoginIff(cfg, db', c.user, p, e);
  }
}
