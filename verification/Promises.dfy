/** What the service promises about each token that it hands out, over every run: whom it is for, how long it lives, and
    what presenting it answers. */
module Promises {
  import opened Wrappers
  import opened Uuids
  import opened Rows
  import opened Jwt
  import opened Ledger
  import opened Commands
  import opened Sessions
  import opened Histories
  import opened Outcomes
  import Emails

  /** Step m hands out a pair of tokens for `owner`, and the record of the refresh token. */
  ghost predicate HandsOut(cfg: Settings, h: History, m: nat, owner: Uuid)
    requires m < |h.steps| < |h.states|
  {
    var d := h.steps[m].draw;
    && Hands(cfg, ReplyAt(cfg, h, m).outcome, owner, d)
    && d.id in Table(h, m + 1)
    && Table(h, m + 1)[d.id] == Record(cfg, owner, Table(h, m + 1)[d.id].familyId, d)
  }

  /** A login hands out tokens for the account whose stored address is the one presented, a refresh for the owner of the
      record presented. */
  lemma WhoseTokens(cfg: Settings, h: History, m: nat) returns (owner: Uuid)
    requires IsHistory(cfg, h) && m < |h.steps| && ReplyAt(cfg, h, m).outcome.Issued?
    ensures HandsOut(cfg, h, m, owner) && owner in h.states[m].db.users
    ensures var c := h.steps[m].command;
      || (c.Login? && Emails.Email(c.email) == Some(h.states[m].db.users[owner].email))
      || (c.Refresh? && exists j :: Redeems(cfg, h, m, j) && j in Table(h, m) && Table(h, m)[j].userId == owner)
  {
    hide Decode, Parse, Text, Emails.Email, Hands, Inv, Enabled;
    var s, step := h.states[m], h.steps[m];
    StepAt(cfg, h, m);
    assert Linked(cfg, h, m);
    var family;
    owner, family := IssuedReply(cfg, s, step);
    NewTokens(cfg, owner, family, step.draw);
    EffectPermitted(cfg, s, step);
    NewRecord(cfg, s, step);
    if step.command.Login? {
      LoginOwner(cfg, s, step, owner);
    } else {
      RefreshedOwner(cfg, h, m, owner);
    }
  }

  lemma LoginOwner(cfg: Settings, s: System, step: Step, owner: Uuid)
    requires Inv(cfg, s) && step.command.Login? && ReplyTo(cfg, s, step).tokens.Opened?
    requires ReplyTo(cfg, s, step).tokens.first.userId == owner && owner in s.db.users
    ensures Emails.Email(step.command.email) == Some(s.db.users[owner].email)
  {
    hide Emails.Email, Pair;
  }

  lemma RefreshedOwner(cfg: Settings, h: History, m: nat, owner: Uuid)
    requires m < |h.steps| < |h.states| && h.steps[m].command.Refresh? && ReplyAt(cfg, h, m).outcome.Issued?
    requires var e := ReplyAt(cfg, h, m).tokens;
      e.Rotated? && Permitted(h.states[m].db.ledger, e) && e.successor.userId == owner
    ensures exists j :: Redeems(cfg, h, m, j) && j in Table(h, m) && Table(h, m)[j].userId == owner
  {
    hide Decode, Parse, Pair;
    assert Redeems(cfg, h, m, ReplyAt(cfg, h, m).tokens.prior);
  }

  lemma {:induction false} StaysIssued(cfg: Settings, h: History, m: nat, n: nat, t: Token)
    requires IsHistory(cfg, h) && m < n <= |h.steps| && t in Handed(ReplyAt(cfg, h, m).outcome)
    ensures t in h.states[n].issued && h.steps[m].draw.at.access <= h.states[n].clock
  {
    hide Decode, Parse, Inv, Run;
    if m + 1 < n {
      StaysIssued(cfg, h, m, n - 1, t);
    }
    assert Linked(cfg, h, n - 1);
  }

  /** A refresh token lives for the configured number of days: its record, in every later state, still expires so many
      times 86 400 000 000 microseconds after the clock reading at which it was issued. */
  lemma RecordLifetime(cfg: Settings, h: History, m: nat, n: nat) returns (owner: Uuid)
    requires IsHistory(cfg, h) && m < n <= |h.steps| && ReplyAt(cfg, h, m).outcome.Issued?
    ensures HandsOut(cfg, h, m, owner)
    ensures var d := h.steps[m].draw;
      && d.id in Table(h, n)
      && Table(h, n)[d.id].expiresAt == d.at.issue + cfg.refreshDays * 86_400_000_000
      && Table(h, n)[d.id].userId == owner
  {
    hide Hands, Linked, ReplyAt, HandsOut;
    owner := WhoseTokens(cfg, h, m);
    MonotoneRevocation(cfg, h, m + 1, n);
    SameRecord(cfg, h, m, n, owner);
  }

  lemma SameRecord(cfg: Settings, h: History, m: nat, n: nat, owner: Uuid)
    requires m < |h.steps| < |h.states| && n < |h.states| && HandsOut(cfg, h, m, owner)
    requires Evolves(Table(h, m + 1), Table(h, n))
    ensures var d := h.steps[m].draw;
      d.id in Table(h, n) && Table(h, n)[d.id].(revokedAt := None) == Record(cfg, owner, Table(h, n)[d.id].familyId, d)
  {
    hide Hands, ReplyAt;
  }

  /** The access token that a login or refresh hands out is accepted from its issue until its signed expiry, as an access
      token of the account, and reported expired from then on. */
  lemma AccessLifetime(cfg: Settings, h: History, m: nat, owner: Uuid, now: Time)
    requires IsHistory(cfg, h) && m < |h.steps| && HandsOut(cfg, h, m, owner) && now >= h.steps[m].draw.at.access
    ensures var d, token := h.steps[m].draw, ReplyAt(cfg, h, m).outcome.pair.access;
      && Decode(cfg, token, now) ==
           (if Seconds(d.at.access + cfg.accessMinutes * 60_000_000) * 1_000_000 <= now then Failure(TokenExpired)
            else Success(Payload(Text(owner), Access, d.accessId)))
      && Parse(Text(owner)) == Some(owner)
  {
    hide Parse, Text;
    StepAt(cfg, h, m);
    TextRoundTrip(owner);
    TextRoundTrip(h.steps[m].draw.accessId);
  }

  /** A token that was not issued is refused. */
  lemma ForeignRefused(cfg: Settings, h: History, i: nat)
    requires IsHistory(cfg, h) && i < |h.steps| && (h.steps[i].command.Refresh? || h.steps[i].command.Logout?)
    requires h.steps[i].command.token !in h.states[i].issued
    ensures ReplyAt(cfg, h, i) == Refuse(h.states[i].db, InvalidToken)
  {
    hide Parse, RotateReply, Inv;
    assert Linked(cfg, h, i);
  }

  /** An access token presented to refresh or logout is refused: as expired from its expiry on, as invalid before. */
  lemma AccessRefused(cfg: Settings, h: History, m: nat, i: nat)
    requires IsHistory(cfg, h) && m < i < |h.steps| && ReplyAt(cfg, h, m).outcome.Issued?
    requires h.steps[i].command in {Command.Refresh(ReplyAt(cfg, h, m).outcome.pair.access),
                                    Logout(ReplyAt(cfg, h, m).outcome.pair.access)}
    ensures var d, at := h.steps[m].draw, h.steps[i].draw.at;
      ReplyAt(cfg, h, i) == Refuse(h.states[i].db,
        if Seconds(d.at.access + cfg.accessMinutes * 60_000_000) * 1_000_000 <= at.decode then TokenExpired
        else InvalidToken)
  {
    hide Decode, Parse, RotateReply, Hands, Inv, HandsOut;
    var owner := WhoseTokens(cfg, h, m);
    StaysIssued(cfg, h, m, i, ReplyAt(cfg, h, m).outcome.pair.access);
    assert Linked(cfg, h, i);
    AccessLifetime(cfg, h, m, owner, h.steps[i].draw.at.decode);
  }

  /** How a handed-out refresh token is decoded later on. */
  lemma RefreshDecoded(cfg: Settings, h: History, m: nat, i: nat, owner: Uuid)
    requires IsHistory(cfg, h) && m < i < |h.steps| && HandsOut(cfg, h, m, owner)
    requires h.steps[i].command in {Command.Refresh(ReplyAt(cfg, h, m).outcome.pair.refresh),
                                    Logout(ReplyAt(cfg, h, m).outcome.pair.refresh)}
    ensures var d, now := h.steps[m].draw, h.steps[i].draw.at.decode;
      && Presented(cfg, h.steps[i].command.token, now) ==
           (if Seconds(d.at.issue + cfg.refreshDays * 86_400_000_000) * 1_000_000 <= now then Failure(TokenExpired)
            else Success(Payload(Text(owner), TokenType.Refresh, d.id)))
      && Parse(Text(owner)) == Some(owner)
  {
    hide Parse, Text, Run;
    StaysIssued(cfg, h, m, i, ReplyAt(cfg, h, m).outcome.pair.refresh);
    StepAt(cfg, h, m);
    assert Linked(cfg, h, i);
    TextRoundTrip(owner);
    TextRoundTrip(h.steps[m].draw.id);
  }

  /** What refreshing with a handed-out token answers, whatever happened since: expired from its lifetime on, counted in
      whole seconds by its signature and exactly by its record; invalid once its record is revoked or its owner inactive;
      and otherwise a new pair for the same owner. */
  lemma RefreshAnswer(cfg: Settings, h: History, m: nat, i: nat) returns (owner: Uuid)
    requires IsHistory(cfg, h) && m < i < |h.steps| && ReplyAt(cfg, h, m).outcome.Issued?
    requires h.steps[i].command == Command.Refresh(ReplyAt(cfg, h, m).outcome.pair.refresh)
    ensures HandsOut(cfg, h, m, owner)
    ensures var d, at, db, o := h.steps[m].draw, h.steps[i].draw.at, h.states[i].db, ReplyAt(cfg, h, i).outcome;
      var expiry := d.at.issue + cfg.refreshDays * 86_400_000_000;
      && d.id in db.ledger.rows && owner in db.users
      && if Seconds(expiry) * 1_000_000 <= at.decode then o == Failed(TokenExpired)
         else if db.ledger.rows[d.id].IsRevoked() then o == Failed(InvalidToken)
         else if expiry <= at.now then o == Failed(TokenExpired)
         else if !db.users[owner].isActive then o == Failed(InvalidToken)
         else HandsOut(cfg, h, i, owner)
  {
    hide Decode, Parse, Text, Hands, Run, HandsOut, Linked, Inv;
    owner := RecordLifetime(cfg, h, m, i);
    RefreshDecoded(cfg, h, m, i, owner);
    StepAt(cfg, h, i);
    OwnerKnown(cfg, h.states[i], h.steps[m].draw.id);
    AnswerIs(cfg, h.states[i].db, h.steps[i].command.token, h.steps[i].draw, owner, h.steps[m].draw.id);
    RunsRefresh(cfg, h, i);
    if ReplyAt(cfg, h, i).outcome.Issued? {
      SameOwner(cfg, h, i, owner);
    }
  }

  lemma RunsRefresh(cfg: Settings, h: History, i: nat)
    requires i < |h.steps| < |h.states| && h.steps[i].command.Refresh?
    ensures ReplyAt(cfg, h, i) == RefreshReply(cfg, h.states[i].db, h.steps[i].command.token, h.steps[i].draw)
  {
    hide RefreshReply;
  }

  lemma OwnerKnown(cfg: Settings, s: System, j: Uuid)
    requires Inv(cfg, s) && j in s.db.ledger.rows
    ensures s.db.ledger.rows[j].userId in s.db.users && s.db.users[s.db.ledger.rows[j].userId].id == s.db.ledger.rows[j].userId
  {
  }

  lemma AnswerIs(cfg: Settings, db: Database, token: Token, d: Draw, owner: Uuid, j: Uuid)
    requires j in db.ledger.rows && owner in db.users && db.users[owner].id == owner
    requires var p := Presented(cfg, token, d.at.decode);
      && (p.Failure? ==> p.error == TokenExpired)
      && (p.Success? ==> p.value.tokenId == j && Parse(p.value.subject) == Some(owner))
    ensures var o, row := RefreshReply(cfg, db, token, d).outcome, db.ledger.rows[j];
      if Presented(cfg, token, d.at.decode).Failure? then o == Failed(TokenExpired)
      else if row.IsRevoked() then o == Failed(InvalidToken)
      else if row.expiresAt <= d.at.now then o == Failed(TokenExpired)
      else if !db.users[owner].isActive then o == Failed(InvalidToken)
      else o == Issued(Pair(cfg, owner, d))
  {
    hide Parse, Presented, Pair, NewRow;
  }

  /** A pair made out to one owner is made out to no other. */
  lemma SameOwner(cfg: Settings, h: History, i: nat, owner: Uuid)
    requires IsHistory(cfg, h) && i < |h.steps|
    requires ReplyAt(cfg, h, i).outcome == Issued(Pair(cfg, owner, h.steps[i].draw))
    ensures HandsOut(cfg, h, i, owner)
  {
    hide Parse, Text, Run, Linked, Record;
    var other := WhoseTokens(cfg, h, i);
    NewTokens(cfg, owner, 0, h.steps[i].draw);
    TextRoundTrip(owner);
    TextRoundTrip(other);
  }

  /** What logging out with a handed-out token answers, and what it leaves. */
  lemma LogoutAnswer(cfg: Settings, h: History, m: nat, i: nat)
    requires IsHistory(cfg, h) && m < i < |h.steps| && ReplyAt(cfg, h, m).outcome.Issued?
    requires h.steps[i].command == Logout(ReplyAt(cfg, h, m).outcome.pair.refresh)
    ensures var d, at, rows, r := h.steps[m].draw, h.steps[i].draw.at, Table(h, i), ReplyAt(cfg, h, i);
      && d.id in rows
      && if Seconds(d.at.issue + cfg.refreshDays * 86_400_000_000) * 1_000_000 <= at.decode
         then r == Refuse(h.states[i].db, TokenExpired)
         else r.outcome == Completed && RevokedIn(rows, Table(h, i + 1), Members(rows, rows[d.id].familyId), at.now)
  {
    hide Decode, Parse, Text, Hands, HandsOut, Inv, Presented;
    var owner := RecordLifetime(cfg, h, m, i);
    RefreshDecoded(cfg, h, m, i, owner);
    assert Linked(cfg, h, i);
  }
}
