/** The token service: claims, their integer times, and what decoding accepts. The signature is symbolic: a token
    verifies exactly when it was signed with the service's secret. */
module Jwt {
  import opened Wrappers
  import opened Uuids
  import opened Rows

  datatype Settings = Settings(secret: string, issuer: string, audience: string, accessMinutes: int, refreshDays: int)

  datatype TokenType = Access | Refresh

  datatype Claims = Claims(sub: string, typ: string, jti: string, iss: string, aud: string, iat: int, exp: int)

  datatype Token = NotAToken(text: string) | Signed(secret: string, claims: Claims)

  datatype Payload = Payload(subject: string, tokenType: TokenType, tokenId: Uuid)

  const SECOND: int := 1_000_000

  /** Whole seconds of a timestamp, truncated toward zero. */
  function Seconds(t: Time): int {
    if t >= 0 then t / SECOND else -(-t / SECOND)
  }

  function AccessLifetime(cfg: Settings): int { cfg.accessMinutes * 60 * SECOND }

  function RefreshLifetime(cfg: Settings): int { cfg.refreshDays * 86400 * SECOND }

  function TypeName(t: TokenType): string {
    if t == Access then "access" else "refresh"
  }

  datatype IssuedToken = IssuedToken(token: Token, expiresAt: Time)

  function Encode(cfg: Settings, subject: string, tokenType: TokenType, id: Uuid, now: Time, lifetime: int): IssuedToken {
    var expiresAt := now + lifetime;
    IssuedToken(
      Signed(cfg.secret,
        Claims(subject, TypeName(tokenType), Text(id), cfg.issuer, cfg.audience, Seconds(now), Seconds(expiresAt))),
      expiresAt)
  }

  function CreateAccess(cfg: Settings, subject: string, id: Uuid, now: Time): Token {
    Encode(cfg, subject, Access, id, now, AccessLifetime(cfg)).token
  }

  function CreateRefresh(cfg: Settings, subject: string, id: Uuid, now: Time): IssuedToken {
    Encode(cfg, subject, Refresh, id, now, RefreshLifetime(cfg))
  }

  function Decode(cfg: Settings, token: Token, now: Time): Result<Payload, Error> {
    if !token.Signed? || token.secret != cfg.secret then Failure(InvalidToken)
    else
      var c := token.claims;
      if c.iat * SECOND > now then Failure(InvalidToken)
      else if c.exp * SECOND <= now then Failure(TokenExpired)
      else if c.iss != cfg.issuer || c.aud != cfg.audience then Failure(InvalidToken)
      else
        var id := Parse(c.jti);
        if id.None? then Failure(InvalidToken)
        else if c.typ == "access" then Success(Payload(c.sub, Access, id.value))
        else if c.typ == "refresh" then Success(Payload(c.sub, Refresh, id.value))
        else Failure(InvalidToken)
  }

  /** Decoding a token the service issued gives back its subject, type and id until the signed expiry, and
      TokenExpired from then on. */
  lemma DecodeEncoded(cfg: Settings, subject: string, tokenType: TokenType, id: Uuid, issuedAt: Time, lifetime: int, now: Time)
    requires 0 <= issuedAt <= now
    ensures var token := Encode(cfg, subject, tokenType, id, issuedAt, lifetime).token;
      Decode(cfg, token, now) ==
        if Seconds(issuedAt + lifetime) * SECOND <= now then Failure(TokenExpired)
        else Success(Payload(subject, tokenType, id))
  {
    TextRoundTrip(id);
  }

  /** The signed expiry is the record's expiry rounded down to the second: a token is never accepted once its record
      has expired, and is refused before that by less than a second. */
  lemma ExpiryAgreement(expiresAt: Time, now: Time)
    requires now >= 0
    ensures Seconds(expiresAt) * SECOND > now ==> expiresAt > now && 0 <= expiresAt - Seconds(expiresAt) * SECOND < SECOND
    ensures Seconds(expiresAt) * SECOND <= now ==> expiresAt < now + SECOND
  {
  }

  /** Whole seconds, rounded toward zero: within a second of the time, on the side of the epoch. */
  lemma SecondsTruncate(t: Time)
    ensures t >= 0 ==> Seconds(t) * 1_000_000 <= t < Seconds(t) * 1_000_000 + 1_000_000
    ensures t <= 0 ==> Seconds(t) * 1_000_000 - 1_000_000 < t <= Seconds(t) * 1_000_000
  {
  }

  /** Exactly which tokens are accepted, and as what, and which are reported expired; every other one is invalid. */
  lemma DecodeIff(cfg: Settings, token: Token, now: Time, p: Payload)
    ensures Decode(cfg, token, now) == Success(p) <==>
      && token.Signed? && token.secret == cfg.secret
      && token.claims.iat * 1_000_000 <= now < token.claims.exp * 1_000_000
      && token.claims.iss == cfg.issuer && token.claims.aud == cfg.audience
      && token.claims.sub == p.subject && Parse(token.claims.jti) == Some(p.tokenId)
      && token.claims.typ == (match p.tokenType case Access => "access" case Refresh => "refresh")
    ensures Decode(cfg, token, now) == Failure(TokenExpired) <==>
      && token.Signed? && token.secret == cfg.secret
      && token.claims.iat * 1_000_000 <= now && token.claims.exp * 1_000_000 <= now
    ensures Decode(cfg, token, now).Failure? ==> Decode(cfg, token, now).error in {TokenExpired, InvalidToken}
  {
    hide Parse;
  }
}
