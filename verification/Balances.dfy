/** Counting over interleaved runs: what remains of the counts of Conservation when transactions overlap. Families and
    their sizes still add up; live records do once stale commits and sweeps are entered in the books. */
module Balances {
  import opened Uuids
  import opened Rows
  import opened Ledger
  import opened Interleaved

  // ---------- what is counted ----------

  /** A login commits. */
  ghost predicate CommitsLogin(s: State, step: Step) {
    step.Commit? && step.id in s.work && s.work[step.id].Decided? && s.work[step.id].effect.Opened?
  }

  /** A refresh commits. */
  ghost predicate CommitsRotation(s: State, step: Step) {
    step.Commit? && step.id in s.work && s.work[step.id].Decided? && s.work[step.id].effect.Rotated?
  }

  ghost predicate LogsInAs(s: State, step: Step, u: Uuid) {
    CommitsLogin(s, step) && s.work[step.id].effect.first.userId == u
  }

  ghost predicate RefreshesIn(s: State, step: Step, f: Uuid) {
    CommitsRotation(s, step) && s.work[step.id].effect.successor.familyId == f
  }

  ghost predicate StaleFor(s: State, step: Step, u: Uuid) {
    Stale(s, step) && s.work[step.id].effect.successor.userId == u
  }

  /** The live records of u that a sweep's commit revokes. */
  ghost function SweptOf(s: State, step: Step, u: Uuid): set<Uuid> {
    if step.Commit? && step.id in s.work && s.work[step.id].Swept? then LiveOf(s.rows, u) * s.work[step.id].targets else {}
  }

  ghost function Logins(r: Run, n: nat): nat
    requires n <= |r.steps| < |r.states|
  {
    if n == 0 then 0 else Logins(r, n - 1) + if CommitsLogin(r.states[n - 1], r.steps[n - 1]) then 1 else 0
  }

  ghost function Refreshes(r: Run, n: nat, f: Uuid): nat
    requires n <= |r.steps| < |r.states|
  {
    if n == 0 then 0 else Refreshes(r, n - 1, f) + if RefreshesIn(r.states[n - 1], r.steps[n - 1], f) then 1 else 0
  }

  /** Logins of u that commit from step k on, before step n. */
  ghost function LoginsOf(r: Run, k: nat, n: nat, u: Uuid): nat
    requires k <= n <= |r.steps| < |r.states|
  {
    if n == k then 0 else LoginsOf(r, k, n - 1, u) + if LogsInAs(r.states[n - 1], r.steps[n - 1], u) then 1 else 0
  }

  ghost function StalesOf(r: Run, k: nat, n: nat, u: Uuid): nat
    requires k <= n <= |r.steps| < |r.states|
  {
    if n == k then 0 else StalesOf(r, k, n - 1, u) + if StaleFor(r.states[n - 1], r.steps[n - 1], u) then 1 else 0
  }

  /** How many live records of u the sweeps revoke. */
  ghost function RevokedOf(r: Run, k: nat, n: nat, u: Uuid): nat
    requires k <= n <= |r.steps| < |r.states|
  {
    if n == k then 0 else RevokedOf(r, k, n - 1, u) + |SweptOf(r.states[n - 1], r.steps[n - 1], u)|
  }

  // ---------- families and their sizes ----------

  lemma FamiliesWritten(rows: TokenTable, w: Work)
    requires Sound(rows, w)
    ensures Families(Written(rows, w)) ==
      Families(rows) + if w.Decided? && w.effect.Opened? then {w.effect.first.familyId} else {}
  {
    var rows' := Written(rows, w);
    WriteMonotone(rows, w);
    forall f | f in Families(rows) ensures f in Families(rows') {
      FamiliesStay(rows, rows', f);
    }
    if Added(w).Some? {
      InFamilies(rows', Added(w).value.jti);
      if w.effect.Rotated? {
        InFamilies(rows, w.effect.prior);
      }
    }
    forall f | f in Families(rows')
      ensures f in Families(rows) || (w.Decided? && w.effect.Opened? && f == w.effect.first.familyId)
    {
      var j :| j in rows' && rows'[j].familyId == f;
      if j in rows {
        InFamilies(rows, j);
      }
    }
  }

  /** Under every interleaving the number of families equals the number of logins that committed. */
  lemma {:induction false} FamiliesAreLogins(r: Run, n: nat)
    requires IsRun(r) && n <= |r.steps|
    ensures |Families(r.states[n].rows)| == Logins(r, n)
  {
    if n == 0 {
      assert Families(r.states[0].rows) == {};
    } else {
      FamiliesAreLogins(r, n - 1);
      Reaches(r, n - 1);
      assert Linked(r, n - 1);
      var s, step := r.states[n - 1], r.steps[n - 1];
      if step.Commit? {
        FamiliesWritten(s.rows, s.work[step.id]);
      }
    }
  }

  lemma MembersWritten(rows: TokenTable, w: Work, f: Uuid)
    requires Sound(rows, w)
    ensures Members(Written(rows, w), f) ==
      Members(rows, f) + if Added(w).Some? && Added(w).value.familyId == f then {Added(w).value.jti} else {}
    ensures Added(w).Some? ==> Added(w).value.jti !in Members(rows, f)
    ensures w.Decided? && w.effect.Opened? && w.effect.first.familyId == f ==> Members(rows, f) == {}
  {
    WriteMonotone(rows, w);
    if w.Decided? && w.effect.Opened? && w.effect.first.familyId == f {
      forall j | j in rows ensures rows[j].familyId != f {
        InFamilies(rows, j);
      }
    }
  }

  lemma SomeMember(rows: TokenTable, f: Uuid)
    ensures f in Families(rows) <==> Members(rows, f) != {}
  {
    if f in Families(rows) {
      var j :| j in rows && rows[j].familyId == f;
      assert j in Members(rows, f);
    } else if j :| j in Members(rows, f) {
      InFamilies(rows, j);
    }
  }

  lemma MembersStep(s: State, step: Step, f: Uuid)
    requires Inv(s) && Enabled(s, step)
    ensures var before, after := Members(s.rows, f), Members(After(s, step).rows, f);
      if RefreshesIn(s, step, f) then before != {} && |after| == |before| + 1
      else if CommitsLogin(s, step) && s.work[step.id].effect.first.familyId == f then before == {} && |after| == 1
      else |after| == |before|
  {
    if step.Commit? {
      var w := s.work[step.id];
      MembersWritten(s.rows, w, f);
      if RefreshesIn(s, step, f) {
        assert w.effect.prior in Members(s.rows, f);
      }
    }
  }

  lemma {:induction false} MembersCount(r: Run, n: nat, f: Uuid)
    requires IsRun(r) && n <= |r.steps|
    ensures |Members(r.states[n].rows, f)| == if Members(r.states[n].rows, f) == {} then 0 else 1 + Refreshes(r, n, f)
    ensures Members(r.states[n].rows, f) == {} ==> Refreshes(r, n, f) == 0
  {
    hide Inv, Enabled, After, Members, RefreshesIn, CommitsLogin;
    if n == 0 {
      NoMembers(f);
    } else {
      MembersCount(r, n - 1, f);
      Reaches(r, n - 1);
      assert Linked(r, n - 1);
      MembersStep(r.states[n - 1], r.steps[n - 1], f);
    }
  }

  lemma NoMembers(f: Uuid)
    ensures Members(EMPTY.rows, f) == {}
  {
  }

  /** Under every interleaving a family holds one record more than the refreshes that committed in it. */
  lemma FamilySizeIsRefreshes(r: Run, n: nat, f: Uuid)
    requires IsRun(r) && n <= |r.steps| && f in Families(r.states[n].rows)
    ensures |Members(r.states[n].rows, f)| == 1 + Refreshes(r, n, f)
  {
    MembersCount(r, n, f);
    SomeMember(r.states[n].rows, f);
  }

  // ---------- live records ----------

  lemma LiveWritten(rows: TokenTable, w: Work, u: Uuid)
    requires Sound(rows, w) && Added(w).Some?
    ensures var prior := if w.effect.Rotated? then {w.effect.prior} else {};
      LiveOf(Written(rows, w), u) ==
        LiveOf(rows, u) - prior + if Added(w).value.userId == u then {Added(w).value.jti} else {}
    ensures Added(w).value.jti !in LiveOf(rows, u)
  {
    WriteMonotone(rows, w);
  }

  lemma LiveSwept(rows: TokenTable, targets: set<Uuid>, at: Time, u: Uuid)
    ensures LiveOf(RevokeAll(rows, targets, at), u) == LiveOf(rows, u) - targets
    ensures |LiveOf(rows, u) - targets| + |LiveOf(rows, u) * targets| == |LiveOf(rows, u)|
  {
    assert LiveOf(rows, u) == (LiveOf(rows, u) - targets) + (LiveOf(rows, u) * targets);
  }

  /** One step's entries in the books of u. */
  lemma LiveStep(s: State, step: Step, u: Uuid)
    requires Inv(s) && Enabled(s, step)
    ensures |LiveOf(After(s, step).rows, u)| + |SweptOf(s, step, u)| ==
      |LiveOf(s.rows, u)| + (if LogsInAs(s, step, u) then 1 else 0) + (if StaleFor(s, step, u) then 1 else 0)
  {
    if step.Commit? {
      var w := s.work[step.id];
      if w.Swept? {
        LiveSwept(s.rows, w.targets, w.at, u);
      } else if w.effect.Opened? {
        LiveWritten(s.rows, w, u);
      } else if w.effect.Rotated? {
        LiveWritten(s.rows, w, u);
        RotationEntry(s.rows, w, u);
      }
    }
  }

  lemma RotationEntry(rows: TokenTable, w: Work, u: Uuid)
    requires Sound(rows, w) && w.Decided? && w.effect.Rotated?
    requires LiveOf(Written(rows, w), u) ==
      LiveOf(rows, u) - {w.effect.prior} + if w.effect.successor.userId == u then {w.effect.successor.jti} else {}
    ensures |LiveOf(Written(rows, w), u)| ==
      |LiveOf(rows, u)| + if w.effect.successor.userId == u && rows[w.effect.prior].IsRevoked() then 1 else 0
  {
    var live, prior, next := LiveOf(rows, u), w.effect.prior, w.effect.successor.jti;
    assert prior in live <==> w.effect.successor.userId == u && !rows[prior].IsRevoked();
    assert next !in live && next != prior;
    if prior !in live {
      assert live - {prior} == live;
    }
  }

  /** The books balance over any stretch of any interleaved run: the live records a user has at its end, and those that
      sweeps revoked in it, are the ones the user had at its beginning, and one for each login and each stale commit. */
  lemma {:induction false} LiveBalance(r: Run, k: nat, n: nat, u: Uuid)
    requires IsRun(r) && k <= n <= |r.steps|
    ensures |LiveOf(r.states[n].rows, u)| + RevokedOf(r, k, n, u) ==
      |LiveOf(r.states[k].rows, u)| + LoginsOf(r, k, n, u) + StalesOf(r, k, n, u)
    decreases n
  {
    if k < n {
      LiveBalance(r, k, n - 1, u);
      Reaches(r, n - 1);
      assert Linked(r, n - 1);
      LiveStep(r.states[n - 1], r.steps[n - 1], u);
    }
  }

  /** The exact condition for the bound on live records: since state k, for instance the one a password change leaves, a
      user has no more live records than logins, if and only if the sweeps since revoked as many as there were live at k
      and stale commits added. */
  lemma LiveAtMostLoginsIff(r: Run, k: nat, n: nat, u: Uuid)
    requires IsRun(r) && k <= n <= |r.steps|
    ensures |LiveOf(r.states[n].rows, u)| <= LoginsOf(r, k, n, u) <==>
      |LiveOf(r.states[k].rows, u)| + StalesOf(r, k, n, u) <= RevokedOf(r, k, n, u)
  {
    LiveBalance(r, k, n, u);
  }
}
