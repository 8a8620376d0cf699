/** Guarantees over whole runs of the session protocol. */
module Histories {
  import opened Wrappers
  import opened Uuids
  import opened Rows
  import opened Jwt
  import opened Ledger
  import opened Commands
  import opened Sessions
  import LT = LedgerTraces

  datatype History = History(states: seq<System>, steps: seq<Step>)

  ghost predicate IsHistory(cfg: Settings, h: History) {
    && |h.states| == |h.steps| + 1
    && Init(h.states[0])
    && forall i | 0 <= i < |h.steps| :: Linked(cfg, h, i)
  }

  ghost predicate Linked(cfg: Settings, h: History, i: nat)
    requires i < |h.steps| < |h.states|
  {
    Enabled(cfg, h.states[i], h.steps[i]) && h.states[i + 1] == Next(cfg, h.states[i], h.steps[i])
  }

  function Table(h: History, i: nat): TokenTable
    requires i < |h.states|
  {
    h.states[i].db.ledger.rows
  }

  ghost function ReplyAt(cfg: Settings, h: History, i: nat): Reply
    requires i < |h.steps| < |h.states|
  {
    ReplyTo(cfg, h.states[i], h.steps[i])
  }

  lemma StartsValid(cfg: Settings, s: System)
    requires Init(s)
    ensures Inv(cfg, s)
  {
  }

  lemma {:induction false} Reaches(cfg: Settings, h: History, n: nat)
    requires IsHistory(cfg, h) && n <= |h.steps|
    ensures Inv(cfg, h.states[n])
  {
    hide Inv, Enabled, Next;
    if n == 0 {
      StartsValid(cfg, h.states[0]);
    } else {
      Reaches(cfg, h, n - 1);
      assert Linked(cfg, h, n - 1);
      StepKeepsInv(cfg, h.states[n - 1], h.steps[n - 1]);
    }
  }

  lemma StepAt(cfg: Settings, h: History, i: nat)
    requires IsHistory(cfg, h) && i < |h.steps|
    ensures Inv(cfg, h.states[i]) && Enabled(cfg, h.states[i], h.steps[i])
  {
    Reaches(cfg, h, i);
    assert Linked(cfg, h, i);
  }

  // ---------- the token table of a run ----------

  /** The ledgers and effects of a run. */
  ghost predicate Traces(cfg: Settings, h: History, t: LT.Trace) {
    && LT.IsTrace(t)
    && |t.ledgers| == |h.states| == |h.steps| + 1
    && (forall i | 0 <= i < |h.states| :: t.ledgers[i] == h.states[i].db.ledger)
    && (forall i | 0 <= i < |h.steps| :: t.effects[i] == ReplyAt(cfg, h, i).tokens)
  }

  lemma LinkTrace(cfg: Settings, h: History, t: LT.Trace, i: nat)
    requires IsHistory(cfg, h) && i < |h.steps| == |t.effects| && |t.ledgers| == |h.states|
    requires t.ledgers[i] == h.states[i].db.ledger && t.ledgers[i + 1] == h.states[i + 1].db.ledger
    requires t.effects[i] == ReplyAt(cfg, h, i).tokens
    ensures LT.Linked(t, i)
  {
    StepAt(cfg, h, i);
    EffectPermitted(cfg, h.states[i], h.steps[i]);
    assert Linked(cfg, h, i);
  }

  lemma TraceOf(cfg: Settings, h: History) returns (t: LT.Trace)
    requires IsHistory(cfg, h)
    ensures Traces(cfg, h, t)
  {
    t := LT.Trace(seq(|h.states|, i requires 0 <= i < |h.states| => h.states[i].db.ledger),
                  seq(|h.steps|, i requires 0 <= i < |h.steps| < |h.states| => ReplyAt(cfg, h, i).tokens));
    forall i | 0 <= i < |h.steps| ensures LT.Linked(t, i) {
      LinkTrace(cfg, h, t, i);
    }
  }

  // ---------- every reachable state ----------

  /** In every reachable state each family has one owner and at most one live record, the one inserted last. */
  lemma SingleLiveToken(cfg: Settings, h: History, n: nat, i: Uuid, k: Uuid)
    requires IsHistory(cfg, h) && n <= |h.steps|
    requires i in Table(h, n) && k in Table(h, n) && Table(h, n)[i].familyId == Table(h, n)[k].familyId
    ensures Table(h, n)[i].userId == Table(h, n)[k].userId
    ensures !Table(h, n)[i].IsRevoked() ==>
      && (!Table(h, n)[k].IsRevoked() ==> k == i)
      && var log := h.states[n].db.ledger.log;
         forall a, b | 0 <= a < |log| && 0 <= b < |log| && log[a] == i && log[b] == k :: b <= a
  {
    Reaches(cfg, h, n);
    if !Table(h, n)[i].IsRevoked() {
      SingleLive(h.states[n].db.ledger, i, k);
    }
  }

  /** Every issued refresh token stands for a record whose owner is the token's subject, and so is the owner of every
      other record of the family. */
  lemma FamilyOwnership(cfg: Settings, h: History, n: nat, t: Token, k: Uuid)
    requires IsHistory(cfg, h) && n <= |h.steps|
    requires t in h.states[n].issued
    ensures t.Signed?
    ensures t.claims.typ == "refresh" ==>
      var id := Parse(t.claims.jti);
      && id.Some? && id.value in Table(h, n)
      && (k in Table(h, n) && Table(h, n)[k].familyId == Table(h, n)[id.value].familyId ==>
            Parse(t.claims.sub) == Some(Table(h, n)[k].userId))
  {
    Reaches(cfg, h, n);
    assert Backed(cfg, h.states[n], t);
  }

  /** Records inserted later expire no earlier. */
  lemma ExpiriesNeverDecrease(cfg: Settings, h: History, n: nat, a: nat, b: nat)
    requires IsHistory(cfg, h) && n <= |h.steps| && a < b < |h.states[n].db.ledger.log|
    ensures var l := h.states[n].db.ledger;
      l.log[a] in l.rows && l.log[b] in l.rows && l.rows[l.log[a]].expiresAt <= l.rows[l.log[b]].expiresAt
  {
    Reaches(cfg, h, n);
  }

  /** Exactly when a genuine refresh token is redeemed: its signed expiry lies after the decoding, its record is live
      and has not expired when checked, and its owner is active. */
  lemma RefreshIff(cfg: Settings, h: History, i: nat)
    requires IsHistory(cfg, h) && i < |h.steps| && h.steps[i].command.Refresh?
    requires h.steps[i].command.token in h.states[i].issued
    requires var t := h.steps[i].command.token; t.Signed? ==> t.claims.typ == "refresh"
    ensures h.steps[i].command.token.Signed?
    ensures var id := Parse(h.steps[i].command.token.claims.jti);
      && id.Some? && id.value in Table(h, i)
      && var row, at := Table(h, i)[id.value], h.steps[i].draw.at;
         && row.userId in h.states[i].db.users
         && (ReplyAt(cfg, h, i).outcome.Issued? <==>
               && Seconds(row.expiresAt) * SECOND > at.decode && row.expiresAt > at.now
               && !row.IsRevoked() && h.states[i].db.users[row.userId].isActive)
  {
    StepAt(cfg, h, i);
    var s, t, d := h.states[i], h.steps[i].command.token, h.steps[i].draw;
    assert Backed(cfg, s, t);
    DecodeBacked(cfg, s, t, d.at.decode);
    var row := Table(h, i)[Parse(t.claims.jti).value];
    assert Parse(t.claims.sub) == Some(row.userId) && t.claims.exp == Seconds(row.expiresAt);
    assert s.db.users[row.userId].id == row.userId;
  }

  // ---------- revocation over a run ----------

  /** Between any two points of a run, records keep their identity and revocation is write-once. */
  lemma MonotoneRevocation(cfg: Settings, h: History, i: nat, k: nat)
    requires IsHistory(cfg, h) && i <= k <= |h.steps|
    ensures Evolves(Table(h, i), Table(h, k))
  {
    var t := TraceOf(cfg, h);
    LT.Monotone(t, i, k);
  }

  /** Step i is a successful refresh of the token with id j. */
  ghost predicate Redeems(cfg: Settings, h: History, i: nat, j: Uuid)
    requires i < |h.steps| < |h.states|
  {
    Presents(cfg, h, i, j) && ReplyAt(cfg, h, i).outcome.Issued?
  }

  /** Step i is a refresh command whose token decodes as the refresh token with id j. */
  ghost predicate Presents(cfg: Settings, h: History, i: nat, j: Uuid)
    requires i < |h.steps|
  {
    var step := h.steps[i];
    && step.command.Refresh?
    && var p := Presented(cfg, step.command.token, step.draw.at.decode);
       p.Success? && p.value.tokenId == j
  }

  lemma RedeemRotates(cfg: Settings, h: History, i: nat, j: Uuid)
    requires i < |h.steps| < |h.states| && Redeems(cfg, h, i, j)
    ensures var e := ReplyAt(cfg, h, i).tokens;
      e.Rotated? && e.prior == j && e.successor.jti == h.steps[i].draw.id
  {
  }

  /** Over any run each refresh token succeeds in at most one refresh. */
  lemma RedeemAtMostOnce(cfg: Settings, h: History, i: nat, k: nat, j: Uuid)
    requires IsHistory(cfg, h) && i < |h.steps| && k < |h.steps|
    requires Redeems(cfg, h, i, j) && Redeems(cfg, h, k, j)
    ensures i == k
  {
    var t := TraceOf(cfg, h);
    RedeemRotates(cfg, h, i, j);
    RedeemRotates(cfg, h, k, j);
    LT.RotatedOutOnce(t, i, k, j);
  }

  /** Dead families stay dead, and none of their tokens is ever refreshed again. */
  lemma DeadFamiliesStayDead(cfg: Settings, h: History, i: nat, f: Uuid, k: nat)
    requires IsHistory(cfg, h) && i <= k <= |h.steps| && Dead(Table(h, i), f)
    ensures Dead(Table(h, k), f)
    ensures k < |h.steps| ==> forall j | Redeems(cfg, h, k, j) :: j in Table(h, k) && Table(h, k)[j].familyId != f
  {
    var t := TraceOf(cfg, h);
    LT.DeadForever(t, i, k, f);
    if k < |h.steps| {
      assert LT.Linked(t, k);
      forall j | Redeems(cfg, h, k, j) ensures j in Table(h, k) && Table(h, k)[j].familyId != f {
        RedeemRotates(cfg, h, k, j);
      }
    }
  }

  /** A later presentation of a redeemed token that still decodes fails, ends its family and touches no other. */
  lemma ReplayEndsFamily(cfg: Settings, h: History, i: nat, k: nat, j: Uuid)
    requires IsHistory(cfg, h) && i < k < |h.steps| && Redeems(cfg, h, i, j) && Presents(cfg, h, k, j)
    ensures ReplyAt(cfg, h, k).outcome == Failed(InvalidToken)
    ensures j in Table(h, k) && Dead(Table(h, k + 1), Table(h, k)[j].familyId)
    ensures forall x | x in Table(h, k) && Table(h, k)[x].familyId != Table(h, k)[j].familyId ::
      x in Table(h, k + 1) && Table(h, k + 1)[x] == Table(h, k)[x]
  {
    var t := TraceOf(cfg, h);
    RedeemRotates(cfg, h, i, j);
    LT.RotatedOutStays(t, i, k, j);
    RevokedPresented(cfg, h, k, j);
    assert LT.Linked(t, k);
    InFamilies(Table(h, k), j);
    EndFamily(h.states[k].db.ledger, Table(h, k)[j].familyId, h.steps[k].draw.at.now);
  }

  lemma RevokedPresented(cfg: Settings, h: History, k: nat, j: Uuid)
    requires k < |h.steps| < |h.states| && Presents(cfg, h, k, j) && j in Table(h, k) && Table(h, k)[j].IsRevoked()
    ensures ReplyAt(cfg, h, k) ==
      Reply(Failed(InvalidToken), Kept, FamilyEnded(Table(h, k)[j].familyId, h.steps[k].draw.at.now))
  {
  }

  /** Step i is a logout that succeeds for the token with id j. */
  ghost predicate LogsOut(cfg: Settings, h: History, i: nat, j: Uuid)
    requires i < |h.steps|
  {
    var step := h.steps[i];
    && step.command.Logout?
    && var p := Presented(cfg, step.command.token, step.draw.at.decode);
       p.Success? && p.value.tokenId == j
  }

  lemma LogoutEnds(cfg: Settings, h: History, i: nat, j: Uuid)
    requires IsHistory(cfg, h) && i < |h.steps| && LogsOut(cfg, h, i, j)
    ensures j in Table(h, i) && Dead(Table(h, i + 1), Table(h, i)[j].familyId)
    ensures ReplyAt(cfg, h, i) == Reply(Completed, Kept, FamilyEnded(Table(h, i)[j].familyId, h.steps[i].draw.at.now))
    ensures h.states[i + 1].db.ledger ==
      Apply(h.states[i].db.ledger, FamilyEnded(Table(h, i)[j].familyId, h.steps[i].draw.at.now))
  {
    StepAt(cfg, h, i);
    PresentedIsBacked(cfg, h.states[i], h.steps[i].command.token, h.steps[i].draw.at.decode);
    LogoutReplies(cfg, h, i, j);
    InFamilies(Table(h, i), j);
    EndFamily(h.states[i].db.ledger, Table(h, i)[j].familyId, h.steps[i].draw.at.now);
    assert Linked(cfg, h, i);
  }

  lemma LogoutReplies(cfg: Settings, h: History, i: nat, j: Uuid)
    requires i < |h.steps| < |h.states| && LogsOut(cfg, h, i, j) && j in Table(h, i)
    ensures ReplyAt(cfg, h, i) == Reply(Completed, Kept, FamilyEnded(Table(h, i)[j].familyId, h.steps[i].draw.at.now))
  {
  }

  /** Logging out again with the same token leaves the token table identical, at any later time. */
  lemma LogoutAgain(cfg: Settings, h: History, i: nat, k: nat, j: Uuid)
    requires IsHistory(cfg, h) && i < k < |h.steps| && LogsOut(cfg, h, i, j) && LogsOut(cfg, h, k, j)
    ensures h.states[k + 1].db.ledger == h.states[k].db.ledger
  {
    hide LogsOut, Linked, ReplyAt, Dead, Evolves;
    LogoutEnds(cfg, h, i, j);
    LogoutEnds(cfg, h, k, j);
    MonotoneRevocation(cfg, h, i, k);
    DeadFamiliesStayDead(cfg, h, i + 1, Table(h, i)[j].familyId, k);
    EndDeadFamily(h.states[k].db.ledger, Table(h, i)[j].familyId, h.steps[k].draw.at.now);
  }

  // ---------- the password-change cut-off ----------

  /** A login followed by refreshes, each redeeming the token that the step before it issued. */
  ghost predicate Chain(cfg: Settings, h: History, c: seq<nat>) {
    && |h.steps| < |h.states|
    && c != [] && (forall m | 0 <= m < |c| :: c[m] < |h.steps| && ReplyAt(cfg, h, c[m]).outcome.Issued?)
    && h.steps[c[0]].command.Login?
    && forall m | 0 <= m < |c| - 1 :: Redeems(cfg, h, c[m + 1], h.steps[c[m]].draw.id)
  }

  lemma IssuedInserts(cfg: Settings, h: History, t: LT.Trace, i: nat) returns (user: Uuid)
    requires Traces(cfg, h, t) && i < |h.steps| && ReplyAt(cfg, h, i).outcome.Issued?
    ensures LT.Inserts(t, i, h.steps[i].draw.id) && LT.Inserted(t.effects[i]).value.userId == user
    ensures ReplyAt(cfg, h, i).outcome.pair.refresh.Signed?
    ensures ReplyAt(cfg, h, i).outcome.pair.refresh.claims.sub == Text(user)
    ensures if h.steps[i].command.Login? then t.effects[i].Opened?
            else t.effects[i].Rotated? && Redeems(cfg, h, i, t.effects[i].prior)
  {
    var family;
    user, family := IssuedReply(cfg, h.states[i], h.steps[i]);
  }

  lemma ChainTraces(cfg: Settings, h: History, t: LT.Trace, c: seq<nat>)
    requires Traces(cfg, h, t) && Chain(cfg, h, c)
    ensures LT.Chain(t, c)
  {
    var user := IssuedInserts(cfg, h, t, c[0]);
    forall m | 0 <= m < |c| - 1 ensures LT.Succeeds(t, c[m], c[m + 1]) {
      var u := IssuedInserts(cfg, h, t, c[m]);
      RedeemRotates(cfg, h, c[m + 1], h.steps[c[m]].draw.id);
    }
  }

  lemma TraceIssues(cfg: Settings, h: History, t: LT.Trace, i: nat)
    requires Traces(cfg, h, t) && i < |h.steps| && LT.Inserted(t.effects[i]).Some?
    ensures ReplyAt(cfg, h, i).outcome.Issued?
    ensures t.effects[i].Opened? ==> h.steps[i].command.Login?
    ensures t.effects[i].Rotated? ==> Redeems(cfg, h, i, t.effects[i].prior)
  {
  }

  /** Every issued refresh token traces back, rotation by rotation, to a login earlier in the run. */
  lemma TracesToLogin(cfg: Settings, h: History, i: nat) returns (c: seq<nat>)
    requires IsHistory(cfg, h) && i < |h.steps| && ReplyAt(cfg, h, i).outcome.Issued?
    ensures Chain(cfg, h, c) && c[|c| - 1] == i
    ensures forall m | 0 <= m < |c| :: c[m] <= i
  {
    var t := TraceOf(cfg, h);
    var user := IssuedInserts(cfg, h, t, i);
    c := LT.ChainTo(t, i);
    forall m | 0 <= m < |c| ensures c[m] <= i && ReplyAt(cfg, h, c[m]).outcome.Issued? {
      LT.ChainFamily(t, c, m, |c| - 1);
      TraceIssues(cfg, h, t, c[m]);
    }
    TraceIssues(cfg, h, t, c[0]);
    forall m | 0 <= m < |c| - 1 ensures Redeems(cfg, h, c[m + 1], h.steps[c[m]].draw.id) {
      assert LT.Succeeds(t, c[m], c[m + 1]);
      TraceIssues(cfg, h, t, c[m + 1]);
      var u := IssuedInserts(cfg, h, t, c[m]);
    }
  }

  /** Step i is a successful password change of user u. */
  ghost predicate ChangesPassword(cfg: Settings, h: History, i: nat, u: Uuid)
    requires i < |h.steps| < |h.states|
  {
    h.steps[i].command.ChangePassword? && h.steps[i].command.user == u && ReplyAt(cfg, h, i).outcome.Completed?
  }

  lemma ChangeEnds(cfg: Settings, h: History, i: nat, u: Uuid)
    requires IsHistory(cfg, h) && i < |h.steps| && ChangesPassword(cfg, h, i, u)
    ensures ReplyAt(cfg, h, i).tokens == UserEnded(u, h.steps[i].draw.at.now)
    ensures h.states[i + 1].db.ledger == Apply(h.states[i].db.ledger, UserEnded(u, h.steps[i].draw.at.now))
  {
    StepAt(cfg, h, i);
    assert Linked(cfg, h, i);
  }

  /** A password change leaves every record of the user revoked and every other record untouched. */
  lemma PasswordChangeRevokes(cfg: Settings, h: History, i: nat, u: Uuid, j: Uuid)
    requires IsHistory(cfg, h) && i < |h.steps| && ChangesPassword(cfg, h, i, u)
    ensures j in Table(h, i + 1) <==> j in Table(h, i)
    ensures j in Table(h, i) && Table(h, i)[j].userId == u ==> Table(h, i + 1)[j].IsRevoked()
    ensures j in Table(h, i) && Table(h, i)[j].userId != u ==> Table(h, i + 1)[j] == Table(h, i)[j]
  {
    ChangeEnds(cfg, h, i, u);
  }

  /** Password-change cut-off: a refresh token handed to user u after a successful change of u's password traces back,
      through every step of any chain of rotations, to a login done after that change. */
  lemma PasswordChangeCutOff(cfg: Settings, h: History, i: nat, u: Uuid, c: seq<nat>, m: nat)
    requires IsHistory(cfg, h) && i < |h.steps| && ChangesPassword(cfg, h, i, u)
    requires Chain(cfg, h, c) && m < |c| && i < c[|c| - 1]
    requires var handed := ReplyAt(cfg, h, c[|c| - 1]).outcome.pair.refresh; handed.Signed? ==> handed.claims.sub == Text(u)
    ensures c[m] > i
  {
    var t := TraceOf(cfg, h);
    var user := IssuedInserts(cfg, h, t, c[|c| - 1]);
    TextRoundTrip(user);
    TextRoundTrip(u);
    ChangeEnds(cfg, h, i, u);
    ChainTraces(cfg, h, t, c);
    LT.CutOff(t, i, u, h.steps[i].draw.at.now, c, m);
  }
}
