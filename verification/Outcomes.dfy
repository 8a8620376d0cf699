/** What each command answers and leaves behind, written out: which error exactly when, and every field and number of
    what is stored and handed out. */
module Outcomes {
  import opened Wrappers
  import opened Uuids
  import opened Rows
  import opened Emails
  import opened Jwt
  import opened Ledger
  import opened Commands

  const DAY: int := 86_400_000_000
  const MINUTE: int := 60_000_000

  /** The access token of user u: its own id, and a lifetime of so many minutes from its clock reading. */
  ghost predicate IsAccess(cfg: Settings, token: Token, u: Uuid, d: Draw) {
    token == Signed(cfg.secret, Claims(Text(u), "access", Text(d.accessId), cfg.issuer, cfg.audience,
      Seconds(d.at.access), Seconds(d.at.access + cfg.accessMinutes * MINUTE)))
  }

  /** The refresh token of user u: the id of its record, and a lifetime of so many days from its clock reading. */
  ghost predicate IsRefresh(cfg: Settings, token: Token, u: Uuid, d: Draw) {
    token == Signed(cfg.secret, Claims(Text(u), "refresh", Text(d.id), cfg.issuer, cfg.audience,
      Seconds(d.at.issue), Seconds(d.at.issue + cfg.refreshDays * DAY)))
  }

  ghost predicate Hands(cfg: Settings, o: Outcome, u: Uuid, d: Draw) {
    o.Issued? && IsAccess(cfg, o.pair.access, u, d) && IsRefresh(cfg, o.pair.refresh, u, d)
  }

  /** The record of a new refresh token. */
  function Record(cfg: Settings, u: Uuid, family: Uuid, d: Draw): TokenRow {
    TokenRow(d.id, u, family, d.at.issue + cfg.refreshDays * DAY, None)
  }

  lemma NewTokens(cfg: Settings, u: Uuid, family: Uuid, d: Draw)
    ensures Hands(cfg, Issued(Pair(cfg, u, d)), u, d)
    ensures NewRow(cfg, u, family, d) == Record(cfg, u, family, d)
  {
    hide Text;
  }

  /** rows' is rows with the live records of `targets` revoked at `at`. */
  ghost predicate RevokedIn(rows: TokenTable, rows': TokenTable, targets: set<Uuid>, at: Time) {
    && rows'.Keys == rows.Keys
    && forall j | j in rows ::
         rows'[j] == if j in targets && rows[j].revokedAt == None then rows[j].(revokedAt := Some(at)) else rows[j]
  }

  function OwnedBy(rows: TokenTable, u: Uuid): set<Uuid> {
    set j | j in rows && rows[j].userId == u
  }

  // ---------- register ----------

  lemma RegisterOutcome(db: Database, email: string, password: string, d: Draw)
    ensures var r, address := RegisterReply(db, email, password, d), Email(email);
      && (r.outcome == Failed(ValidationFailed) <==> address == None)
      && (r.outcome == Failed(EmailAlreadyExists) <==>
            address.Some? && exists u :: u in db.users && db.users[u].email == address.value)
      && (r.outcome.Failed? ==> r.outcome.error in {ValidationFailed, EmailAlreadyExists} && Settled(db, r) == db)
      && (!r.outcome.Failed? ==>
            && r.outcome == Registered(UserView(d.id, address.value, true, d.at.now))
            && Settled(db, r) == Database(
                 db.users[d.id := UserRow(d.id, address.value, HashedPassword(d.salt, password), true, d.at.now)],
                 db.ledger))
  {
    hide Email;
  }

  /** No spelling of a stored address, in whatever letter case and with whatever white space around it, can be registered
      again. */
  lemma SpellingTaken(db: Database, user: Uuid, other: string, lo: nat, hi: nat, password: string, d: Draw)
    requires NormalEmails(db.users) && user in db.users
    requires Trimmed(other, lo, hi) && SameLetters(db.users[user].email, other[lo..hi])
    ensures RegisterReply(db, other, password, d).outcome == Failed(EmailAlreadyExists)
  {
    hide Email, Trimmed, SameLetters;
    var stored := db.users[user].email;
    StoredSpelling(stored);
    assert stored[0..|stored|] == stored;
    OneAddress(stored, 0, |stored|, other, lo, hi);
  }

  lemma StoredSpelling(stored: string)
    requires Email(stored) == Some(stored)
    ensures Trimmed(stored, 0, |stored|)
  {
    hide Email;
    StoredIsPlain(stored);
  }

  // ---------- login ----------

  /** The account that the address and the password open. */
  ghost predicate Opens(users: UserTable, u: Uuid, email: string, password: string) {
    && u in users && Email(email) == Some(users[u].email)
    && users[u].isActive && users[u].hashedPassword.password == password
  }

  /** Every refused login answers the same; an accepted one opens a family for the account that it names. */
  lemma LoginOutcome(cfg: Settings, db: Database, email: string, password: string, d: Draw, u: Uuid)
    requires UsersValid(db.users)
    ensures var r := LoginReply(cfg, db, email, password, d);
      && (r.outcome.Issued? <==> exists v :: Opens(db.users, v, email, password))
      && (!r.outcome.Issued? ==> r.outcome == Failed(InvalidCredentials) && Settled(db, r) == db)
      && (Opens(db.users, u, email, password) ==>
            && Hands(cfg, r.outcome, u, d)
            && Settled(db, r) == Database(db.users,
                 Ledger(db.ledger.rows[d.id := Record(cfg, u, d.family, d)], db.ledger.log + [d.id])))
  {
    hide Email, Pair, NewRow, Hands;
    var r := LoginReply(cfg, db, email, password, d);
    if r.outcome.Issued? {
      var found := UserByEmail(db.users, Email(email).value).value;
      assert Opens(db.users, found.id, email, password);
    }
    if v :| Opens(db.users, v, email, password) {
      assert UserByEmail(db.users, Email(email).value) == Some(db.users[v]);
    }
    NewTokens(cfg, u, d.family, d);
  }

  // ---------- change password ----------

  lemma ChangeOutcome(db: Database, user: Uuid, current: string, next: string, d: Draw)
    requires UsersValid(db.users)
    ensures var r := ChangePasswordReply(db, user, current, next, d);
      var db' := Settled(db, r);
      && (r.outcome == Failed(UserNotFound) <==> user !in db.users)
      && (r.outcome == Failed(InvalidCredentials) <==>
            user in db.users && current != db.users[user].hashedPassword.password)
      && (r.outcome == Completed <==> user in db.users && current == db.users[user].hashedPassword.password)
      && (r.outcome != Completed ==> r.outcome.Failed? && db' == db)
      && (r.outcome == Completed ==>
            && db'.users == db.users[user := db.users[user].(hashedPassword := HashedPassword(d.salt, next))]
            && db'.ledger.log == db.ledger.log
            && RevokedIn(db.ledger.rows, db'.ledger.rows, OwnedBy(db.ledger.rows, user), d.at.now))
  {
  }

  // ---------- refresh and logout ----------

  /** The token is accepted as the refresh token of this record's id. */
  ghost predicate Names(cfg: Settings, token: Token, now: Time, p: Payload) {
    Decode(cfg, token, now) == Success(p) && p.tokenType == TokenType.Refresh
  }

  /** A refresh: the answer for each kind of token, record and owner, and what it leaves. */
  lemma RefreshOutcome(cfg: Settings, db: Database, token: Token, d: Draw, p: Payload)
    requires UsersValid(db.users)
    ensures var r, rows, decoded := RefreshReply(cfg, db, token, d), db.ledger.rows, Decode(cfg, token, d.at.decode);
      var db' := Settled(db, r);
      && (decoded.Failure? ==> r.outcome == Failed(decoded.error) && db' == db)
      && (decoded.Success? && decoded.value.tokenType != TokenType.Refresh ==>
            r.outcome == Failed(InvalidToken) && db' == db)
      && (Names(cfg, token, d.at.decode, p) && p.tokenId !in rows ==> r.outcome == Failed(InvalidToken) && db' == db)
      && (Names(cfg, token, d.at.decode, p) && p.tokenId in rows ==>
            var row, owner := rows[p.tokenId], Parse(p.subject);
            if row.revokedAt != None then
              && r.outcome == Failed(InvalidToken) && db'.users == db.users && db'.ledger.log == db.ledger.log
              && RevokedIn(rows, db'.ledger.rows, Members(rows, row.familyId), d.at.now)
            else if row.expiresAt <= d.at.now then r.outcome == Failed(TokenExpired) && db' == db
            else if owner == None || owner.value !in db.users || !db.users[owner.value].isActive then
              r.outcome == Failed(InvalidToken) && db' == db
            else
              && Hands(cfg, r.outcome, owner.value, d) && db'.users == db.users
              && db'.ledger.log == db.ledger.log + [d.id]
              && db'.ledger.rows == rows[p.tokenId := row.(revokedAt := Some(d.at.now))]
                                        [d.id := Record(cfg, owner.value, row.familyId, d)])
  {
    hide Decode, Parse, Pair, NewRow, Hands, Text;
    var owner := Parse(p.subject);
    if owner.Some? {
      NewTokens(cfg, owner.value, if p.tokenId in db.ledger.rows then db.ledger.rows[p.tokenId].familyId else 0, d);
    }
  }

  /** A logout: a token that is not accepted is refused, a token without a record is logged out already, and any other one
      ends its family. */
  lemma LogoutOutcome(cfg: Settings, db: Database, token: Token, d: Draw, p: Payload)
    ensures var r, rows, decoded := LogoutReply(cfg, db, token, d), db.ledger.rows, Decode(cfg, token, d.at.decode);
      var db' := Settled(db, r);
      && (decoded.Failure? ==> r.outcome == Failed(decoded.error) && db' == db)
      && (decoded.Success? && decoded.value.tokenType != TokenType.Refresh ==>
            r.outcome == Failed(InvalidToken) && db' == db)
      && (Names(cfg, token, d.at.decode, p) ==>
            && r.outcome == Completed && db'.users == db.users && db'.ledger.log == db.ledger.log
            && if p.tokenId !in rows then db' == db
               else RevokedIn(rows, db'.ledger.rows, Members(rows, rows[p.tokenId].familyId), d.at.now))
  {
    hide Decode;
  }
}
