/** The refresh-token session protocol: runs of the five commands from an empty token table, and what holds over every
    run. Each command is one atomic step; the pattern is refresh token rotation, section 5.2.2.3 of RFC 6819. */
module Sessions {
  import opened Wrappers
  import opened Uuids
  import opened Rows
  import opened Jwt
  import opened Ledger
  import opened Commands
  import Emails

  /** The database, every token handed to a client so far, and a lower bound on the next clock reading. */
  datatype System = System(db: Database, issued: set<Token>, clock: Time)

  datatype Step = Step(command: Command, draw: Draw)

  function Handed(o: Outcome): set<Token> {
    if o.Issued? then {o.pair.access, o.pair.refresh} else {}
  }

  /** The clock does not run backwards, uuid4 does not repeat, and a token that verifies is one the service issued. */
  ghost predicate Enabled(cfg: Settings, s: System, step: Step) {
    var at := step.draw.at;
    && s.clock <= at.decode <= at.now <= at.issue <= at.access
    && Fresh(s.db, step.draw)
    && (step.command.Refresh? || step.command.Logout? ==> Genuine(cfg, s, step.command.token))
  }

  ghost predicate Genuine(cfg: Settings, s: System, token: Token) {
    token.Signed? && token.secret == cfg.secret ==> token in s.issued
  }

  ghost function ReplyTo(cfg: Settings, s: System, step: Step): Reply {
    Run(cfg, s.db, step.command, step.draw)
  }

  ghost function Next(cfg: Settings, s: System, step: Step): System {
    System(After(cfg, s.db, step.command, step.draw),
           s.issued + Handed(ReplyTo(cfg, s, step).outcome),
           step.draw.at.access)
  }

  // ---------- the invariant ----------

  /** An issued refresh token stands for a record: its id, its owner and its expiry, rounded down to the second. */
  ghost predicate Backed(cfg: Settings, s: System, token: Token) {
    && token.Signed? && token.secret == cfg.secret
    && token.claims.iss == cfg.issuer && token.claims.aud == cfg.audience
    && token.claims.iat * SECOND <= s.clock
    && (token.claims.typ == "refresh" ==> BackedByRow(s.db.ledger.rows, token.claims))
  }

  ghost predicate BackedByRow(rows: TokenTable, c: Claims) {
    var id := Parse(c.jti);
    id.Some? && id.value in rows && Parse(c.sub) == Some(rows[id.value].userId) && c.exp == Seconds(rows[id.value].expiresAt)
  }

  /** Later records expire later, and none after the lifetime counted from now. */
  ghost predicate Expiries(cfg: Settings, l: Ledger, clock: Time)
    requires Logged(l)
  {
    && (forall j | j in l.rows :: l.rows[j].expiresAt <= clock + RefreshLifetime(cfg))
    && (forall i, k | 0 <= i < k < |l.log| :: l.rows[l.log[i]].expiresAt <= l.rows[l.log[k]].expiresAt)
  }

  ghost predicate Owned(db: Database) {
    forall j | j in db.ledger.rows :: db.ledger.rows[j].userId in db.users
  }

  ghost predicate Inv(cfg: Settings, s: System) {
    && s.clock >= 0
    && UsersValid(s.db.users)
    && Valid(s.db.ledger)
    && Owned(s.db)
    && Expiries(cfg, s.db.ledger, s.clock)
    && (forall t | t in s.issued :: Backed(cfg, s, t))
  }

  ghost predicate Init(s: System) {
    s.clock >= 0 && UsersValid(s.db.users) && s.db.ledger == Ledger(map[], []) && s.issued == {}
  }

  /** A token that decodes as a refresh token names an existing record, its subject is the record's owner, and the
      record has not expired at the time of decoding. */
  lemma PresentedIsBacked(cfg: Settings, s: System, token: Token, now: Time)
    requires Inv(cfg, s) && Genuine(cfg, s, token) && now >= s.clock
    requires Presented(cfg, token, now).Success?
    ensures var p := Presented(cfg, token, now).value;
      && p.tokenId in s.db.ledger.rows
      && Parse(p.subject) == Some(s.db.ledger.rows[p.tokenId].userId)
      && s.db.ledger.rows[p.tokenId].expiresAt > now
  {
    assert Backed(cfg, s, token);
    ExpiryAgreement(s.db.ledger.rows[Parse(token.claims.jti).value].expiresAt, now);
  }

  /** An issued refresh token decodes until its signed expiry and is reported expired from then on. */
  lemma DecodeBacked(cfg: Settings, s: System, token: Token, now: Time)
    requires Backed(cfg, s, token) && token.claims.typ == "refresh" && now >= s.clock
    ensures Presented(cfg, token, now) ==
      if token.claims.exp * SECOND <= now then Failure(TokenExpired)
      else Success(Payload(token.claims.sub, TokenType.Refresh, Parse(token.claims.jti).value))
  {
  }

  lemma RefreshPermitted(cfg: Settings, db: Database, token: Token, d: Draw)
    requires Fresh(db, d) && forall u | u in db.users :: db.users[u].id == u
    requires var p := Presented(cfg, token, d.at.decode);
      p.Success? && p.value.tokenId in db.ledger.rows ==>
        Parse(p.value.subject) == Some(db.ledger.rows[p.value.tokenId].userId)
    ensures Permitted(db.ledger, RefreshReply(cfg, db, token, d).tokens)
  {
  }

  lemma EffectPermitted(cfg: Settings, s: System, step: Step)
    requires Inv(cfg, s) && Enabled(cfg, s, step)
    ensures Permitted(s.db.ledger, ReplyTo(cfg, s, step).tokens)
  {
    var c := step.command;
    if c.Refresh? {
      if Presented(cfg, c.token, step.draw.at.decode).Success? {
        PresentedIsBacked(cfg, s, c.token, step.draw.at.decode);
      }
      RefreshPermitted(cfg, s.db, c.token, step.draw);
    }
  }

  /** The owner of a new record is a user, and its expiry is the lifetime counted from the issuing clock reading. */
  lemma NewRecord(cfg: Settings, s: System, step: Step)
    requires Inv(cfg, s) && Enabled(cfg, s, step)
    ensures var e := ReplyTo(cfg, s, step).tokens;
      (e.Opened? || e.Rotated?) ==>
        var row := if e.Opened? then e.first else e.successor;
        row.userId in s.db.users && row.expiresAt == step.draw.at.issue + RefreshLifetime(cfg)
  {
    var c := step.command;
    if c.Login? && ReplyTo(cfg, s, step).tokens.Opened? {
      var user := UserByEmail(s.db.users, Emails.Email(c.email).value).value;
      assert user.id in s.db.users;
    }
  }

  // ---------- one step keeps the invariant ----------

  lemma ExpiriesStay(cfg: Settings, l: Ledger, e: Effect, clock: Time, issue: Time, clock': Time)
    requires Valid(l) && Permitted(l, e) && Expiries(cfg, l, clock) && clock <= issue <= clock'
    requires e.Opened? ==> e.first.expiresAt == issue + RefreshLifetime(cfg)
    requires e.Rotated? ==> e.successor.expiresAt == issue + RefreshLifetime(cfg)
    ensures Valid(Apply(l, e)) && Expiries(cfg, Apply(l, e), clock')
  {
    hide RefreshLifetime;
    ApplyValid(l, e);
    ApplyEvolves(l, e);
    var l' := Apply(l, e);
    forall i, k | 0 <= i < k < |l'.log| ensures l'.rows[l'.log[i]].expiresAt <= l'.rows[l'.log[k]].expiresAt {
      assert l'.log[i] == l.log[i];
      assert k < |l.log| ==> l'.log[k] == l.log[k];
    }
  }

  lemma BackedStays(cfg: Settings, s: System, s': System, token: Token)
    requires Backed(cfg, s, token) && s.clock <= s'.clock && Evolves(s.db.ledger.rows, s'.db.ledger.rows)
    ensures Backed(cfg, s', token)
  {
  }

  /** A command that issues tokens opens a family or rotates within one; the new record is the one the pair stands for. */
  lemma IssuedReply(cfg: Settings, s: System, step: Step) returns (user: Uuid, family: Uuid)
    requires ReplyTo(cfg, s, step).outcome.Issued?
    ensures var r, row := ReplyTo(cfg, s, step), NewRow(cfg, user, family, step.draw);
      && r.outcome.pair == Pair(cfg, user, step.draw)
      && if step.command.Login? then r.tokens == Opened(row) && family == step.draw.family
         else step.command.Refresh? && r.tokens.Rotated? && r.tokens.successor == row
  {
    var e := ReplyTo(cfg, s, step).tokens;
    var row := if e.Opened? then e.first else e.successor;
    user, family := row.userId, row.familyId;
  }

  /** The tokens handed out by a step are backed by the table it leaves. */
  lemma HandedAreBacked(cfg: Settings, s: System, step: Step)
    requires Inv(cfg, s) && Enabled(cfg, s, step)
    ensures forall t | t in Handed(ReplyTo(cfg, s, step).outcome) :: Backed(cfg, Next(cfg, s, step), t)
  {
    if ReplyTo(cfg, s, step).outcome.Issued? {
      var user, family := IssuedReply(cfg, s, step);
      var s' := Next(cfg, s, step);
      assert s'.db.ledger.rows[step.draw.id] == NewRow(cfg, user, family, step.draw);
      PairBacked(cfg, s', user, family, step.draw);
    }
  }

  lemma PairBacked(cfg: Settings, s: System, user: Uuid, family: Uuid, d: Draw)
    requires 0 <= d.at.issue <= s.clock && 0 <= d.at.access <= s.clock
    requires d.id in s.db.ledger.rows && s.db.ledger.rows[d.id] == NewRow(cfg, user, family, d)
    ensures Backed(cfg, s, Pair(cfg, user, d).access) && Backed(cfg, s, Pair(cfg, user, d).refresh)
  {
    TextRoundTrip(d.id);
    TextRoundTrip(user);
  }

  lemma StepKeepsInv(cfg: Settings, s: System, step: Step)
    requires Inv(cfg, s) && Enabled(cfg, s, step)
    ensures Inv(cfg, Next(cfg, s, step))
  {
    var s' := Next(cfg, s, step);
    var r := ReplyTo(cfg, s, step);
    EffectPermitted(cfg, s, step);
    NewRecord(cfg, s, step);
    ExpiriesStay(cfg, s.db.ledger, r.tokens, s.clock, step.draw.at.issue, s'.clock);
    ApplyEvolves(s.db.ledger, r.tokens);
    UserEffectPermitted(cfg, s.db, step.command, step.draw);
    UsersStayValid(s.db.users, r.users);
    HandedAreBacked(cfg, s, step);
    forall t | t in s'.issued ensures Backed(cfg, s', t) {
      if t in s.issued {
        BackedStays(cfg, s, s', t);
      }
    }
  }
}
