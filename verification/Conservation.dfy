/** Counting over runs: families against logins, family sizes against refreshes, live records against logins. */
module Conservation {
  import opened Uuids
  import opened Rows
  import opened Jwt
  import opened Ledger
  import opened Histories
  import LT = LedgerTraces

  // ---------- on the token table ----------

  function Opens(t: LT.Trace, n: nat): nat
    requires n <= |t.effects|
  {
    if n == 0 then 0 else Opens(t, n - 1) + if t.effects[n - 1].Opened? then 1 else 0
  }

  function Rotations(t: LT.Trace, n: nat, f: Uuid): nat
    requires n <= |t.effects|
  {
    if n == 0 then 0 else
      Rotations(t, n - 1, f) + if t.effects[n - 1].Rotated? && t.effects[n - 1].successor.familyId == f then 1 else 0
  }

  /** Families opened for u since u's records were last revoked all at once. */
  function OpensSince(t: LT.Trace, n: nat, u: Uuid): nat
    requires n <= |t.effects|
  {
    if n == 0 then 0 else
      match t.effects[n - 1]
      case Opened(row) => OpensSince(t, n - 1, u) + if row.userId == u then 1 else 0
      case UserEnded(user, _) => if user == u then 0 else OpensSince(t, n - 1, u)
      case _ => OpensSince(t, n - 1, u)
  }

  lemma SameFamilies(rows: TokenTable, rows': TokenTable)
    requires rows'.Keys == rows.Keys && forall j | j in rows :: rows'[j].familyId == rows[j].familyId
    ensures Families(rows') == Families(rows)
    ensures forall f :: Members(rows', f) == Members(rows, f)
  {
    forall f ensures f in Families(rows') <==> f in Families(rows) {
      if j :| j in rows && rows[j].familyId == f {
        assert rows'[j].familyId == f;
      }
    }
  }

  lemma FamiliesAfter(l: Ledger, e: Effect)
    requires Permitted(l, e)
    ensures Families(Apply(l, e).rows) == Families(l.rows) + if e.Opened? then {e.first.familyId} else {}
  {
    var rows' := Apply(l, e).rows;
    match e
    case Opened(row) =>
      forall f | f in Families(l.rows) + {row.familyId} ensures f in Families(rows') {
        if f == row.familyId {
          assert rows'[row.jti].familyId == f;
        } else {
          var j :| j in l.rows && l.rows[j].familyId == f;
          assert rows'[j].familyId == f;
        }
      }
    case Rotated(prior, at, next) =>
      forall f | f in Families(l.rows) ensures f in Families(rows') {
        var j :| j in l.rows && l.rows[j].familyId == f;
        assert rows'[j].familyId == f;
      }
      InFamilies(l.rows, prior);
    case _ => SameFamilies(l.rows, rows');
  }

  /** The number of families is the number of openings. */
  lemma {:induction false} CountFamilies(t: LT.Trace, n: nat)
    requires LT.IsTrace(t) && n <= |t.effects|
    ensures |Families(LT.Table(t, n))| == Opens(t, n)
  {
    if n == 0 {
      assert Families(LT.Table(t, 0)) == {};
    } else {
      CountFamilies(t, n - 1);
      assert LT.Linked(t, n - 1);
      FamiliesAfter(t.ledgers[n - 1], t.effects[n - 1]);
    }
  }

  lemma MembersAfter(l: Ledger, e: Effect, f: Uuid)
    requires Permitted(l, e)
    ensures Members(Apply(l, e).rows, f) == Members(l.rows, f) +
      (if e.Opened? && e.first.familyId == f then {e.first.jti}
       else if e.Rotated? && e.successor.familyId == f then {e.successor.jti} else {})
  {
  }

  /** The size of a family is one plus the number of rotations in it. */
  lemma {:induction false} CountMembers(t: LT.Trace, n: nat, f: Uuid)
    requires LT.IsTrace(t) && n <= |t.effects|
    ensures |Members(LT.Table(t, n), f)| == if f in Families(LT.Table(t, n)) then 1 + Rotations(t, n, f) else 0
    ensures f !in Families(LT.Table(t, n)) ==> Rotations(t, n, f) == 0
  {
    if n == 0 {
      assert Members(LT.Table(t, 0), f) == {};
    } else {
      CountMembers(t, n - 1, f);
      assert LT.Linked(t, n - 1);
      var l, e := t.ledgers[n - 1], t.effects[n - 1];
      FamiliesAfter(l, e);
      MembersAfter(l, e, f);
      if e.Rotated? {
        InFamilies(l.rows, e.prior);
      }
    }
  }

  lemma LiveAfter(l: Ledger, e: Effect, u: Uuid)
    requires Permitted(l, e)
    ensures var live, live' := LiveOf(l.rows, u), LiveOf(Apply(l, e).rows, u);
      match e
      case Nothing => live' == live
      case Opened(row) => live' == live + if row.userId == u then {row.jti} else {}
      case Rotated(prior, _, next) =>
        live' == if next.userId == u then live - {prior} + {next.jti} else live
      case FamilyEnded(_, _) => live' <= live
      case UserEnded(user, _) => live' == if user == u then {} else live
  {
  }

  lemma SubsetSize<T>(a: set<T>, b: set<T>)
    requires a <= b
    ensures |a| <= |b|
  {
    assert b == a + (b - a);
  }

  /** A user's live records never outnumber the openings since the last revocation of all of them. */
  lemma {:induction false} CountLive(t: LT.Trace, n: nat, u: Uuid)
    requires LT.IsTrace(t) && n <= |t.effects|
    ensures |LiveOf(LT.Table(t, n), u)| <= OpensSince(t, n, u)
  {
    if n == 0 {
      assert LiveOf(LT.Table(t, 0), u) == {};
    } else {
      CountLive(t, n - 1, u);
      assert LT.Linked(t, n - 1);
      var l, e := t.ledgers[n - 1], t.effects[n - 1];
      LiveAfter(l, e, u);
      if e.FamilyEnded? {
        SubsetSize(LiveOf(LT.Table(t, n), u), LiveOf(LT.Table(t, n - 1), u));
      } else if e.Rotated? && e.successor.userId == u {
        assert e.prior in LiveOf(l.rows, u);
      }
    }
  }

  // ---------- on runs of the commands ----------

  ghost predicate LogsIn(cfg: Settings, h: History, i: nat)
    requires i < |h.steps| < |h.states|
  {
    h.steps[i].command.Login? && ReplyAt(cfg, h, i).outcome.Issued?
  }

  /** Step i is a successful refresh of a token of family f. */
  ghost predicate RefreshesIn(cfg: Settings, h: History, i: nat, f: Uuid)
    requires i < |h.steps| < |h.states|
  {
    exists j :: Redeems(cfg, h, i, j) && j in Table(h, i) && Table(h, i)[j].familyId == f
  }

  ghost function Logins(cfg: Settings, h: History, n: nat): nat
    requires n <= |h.steps| < |h.states|
  {
    if n == 0 then 0 else Logins(cfg, h, n - 1) + if LogsIn(cfg, h, n - 1) then 1 else 0
  }

  ghost function Refreshes(cfg: Settings, h: History, n: nat, f: Uuid): nat
    requires n <= |h.steps| < |h.states|
  {
    if n == 0 then 0 else Refreshes(cfg, h, n - 1, f) + if RefreshesIn(cfg, h, n - 1, f) then 1 else 0
  }

  /** A successful login that hands its refresh token to u. */
  ghost predicate LogsInAs(cfg: Settings, h: History, i: nat, u: Uuid)
    requires i < |h.steps| < |h.states|
  {
    LogsIn(cfg, h, i) && var token := ReplyAt(cfg, h, i).outcome.pair.refresh; token.Signed? && token.claims.sub == Text(u)
  }

  ghost function LoginsSinceChange(cfg: Settings, h: History, n: nat, u: Uuid): nat
    requires n <= |h.steps| < |h.states|
  {
    if n == 0 || ChangesPassword(cfg, h, n - 1, u) then 0
    else LoginsSinceChange(cfg, h, n - 1, u) + if LogsInAs(cfg, h, n - 1, u) then 1 else 0
  }

  lemma EffectsOfCommands(cfg: Settings, h: History, t: LT.Trace, i: nat, f: Uuid)
    requires IsHistory(cfg, h) && Traces(cfg, h, t) && i < |h.steps|
    ensures t.effects[i].Opened? <==> LogsIn(cfg, h, i)
    ensures t.effects[i].Rotated? && t.effects[i].successor.familyId == f <==> RefreshesIn(cfg, h, i, f)
  {
    assert LT.Linked(t, i);
    if LT.Inserted(t.effects[i]).Some? {
      TraceIssues(cfg, h, t, i);
    }
    if ReplyAt(cfg, h, i).outcome.Issued? {
      var user := IssuedInserts(cfg, h, t, i);
    }
    if j :| Redeems(cfg, h, i, j) && j in Table(h, i) && Table(h, i)[j].familyId == f {
      RedeemRotates(cfg, h, i, j);
    }
  }

  lemma LoginsByUser(cfg: Settings, h: History, t: LT.Trace, i: nat, u: Uuid)
    requires IsHistory(cfg, h) && Traces(cfg, h, t) && i < |h.steps|
    ensures t.effects[i].Opened? && t.effects[i].first.userId == u <==> LogsInAs(cfg, h, i, u)
    ensures t.effects[i].UserEnded? && t.effects[i].user == u <==> ChangesPassword(cfg, h, i, u)
  {
    EffectsOfCommands(cfg, h, t, i, u);
    TextRoundTrip(u);
    if ReplyAt(cfg, h, i).outcome.Issued? {
      var user := IssuedInserts(cfg, h, t, i);
      TextRoundTrip(user);
    }
    UserEndedIff(cfg, h, i, u);
  }

  lemma UserEndedIff(cfg: Settings, h: History, i: nat, u: Uuid)
    requires IsHistory(cfg, h) && i < |h.steps|
    ensures ReplyAt(cfg, h, i).tokens.UserEnded? && ReplyAt(cfg, h, i).tokens.user == u <==> ChangesPassword(cfg, h, i, u)
  {
    StepAt(cfg, h, i);
  }

  lemma {:induction false} CountsAgree(cfg: Settings, h: History, t: LT.Trace, n: nat, f: Uuid, u: Uuid)
    requires IsHistory(cfg, h) && Traces(cfg, h, t) && n <= |h.steps|
    ensures Opens(t, n) == Logins(cfg, h, n)
    ensures Rotations(t, n, f) == Refreshes(cfg, h, n, f)
    ensures OpensSince(t, n, u) == LoginsSinceChange(cfg, h, n, u)
  {
    hide Linked, ReplyAt, LT.Linked, LogsIn, RefreshesIn, LogsInAs, ChangesPassword;
    if n > 0 {
      CountsAgree(cfg, h, t, n - 1, f, u);
      EffectsOfCommands(cfg, h, t, n - 1, f);
      LoginsByUser(cfg, h, t, n - 1, u);
    }
  }

  /** At every point of a run there are as many families as successful logins so far. */
  lemma FamiliesAreLogins(cfg: Settings, h: History, n: nat)
    requires IsHistory(cfg, h) && n <= |h.steps|
    ensures |Families(Table(h, n))| == Logins(cfg, h, n)
  {
    var t := TraceOf(cfg, h);
    CountFamilies(t, n);
    CountsAgree(cfg, h, t, n, 0, 0);
  }

  /** A family holds one record more than the successful refreshes in it so far. */
  lemma FamilySizeIsRefreshes(cfg: Settings, h: History, n: nat, f: Uuid)
    requires IsHistory(cfg, h) && n <= |h.steps| && f in Families(Table(h, n))
    ensures |Members(Table(h, n), f)| == 1 + Refreshes(cfg, h, n, f)
  {
    var t := TraceOf(cfg, h);
    CountMembers(t, n, f);
    CountsAgree(cfg, h, t, n, f, 0);
  }

  /** A user's live records never outnumber the user's successful logins since their last password change. */
  lemma LiveAtMostLogins(cfg: Settings, h: History, n: nat, u: Uuid)
    requires IsHistory(cfg, h) && n <= |h.steps|
    ensures |LiveOf(Table(h, n), u)| <= LoginsSinceChange(cfg, h, n, u)
  {
    var t := TraceOf(cfg, h);
    CountLive(t, n, u);
    CountsAgree(cfg, h, t, n, 0, u);
  }
}
