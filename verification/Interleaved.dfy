/** Commands as transactions whose statements interleave. A transaction first reads and decides its effect; a bulk
    UPDATE later picks the live rows that match at that moment; the commit writes. Rotation writes the presented row by
    primary key and adds the successor without looking at the table again. */
module Interleaved {
  import opened Wrappers
  import opened Uuids
  import opened Rows
  import opened Ledger

  datatype Work =
    | Decided(effect: Effect)
    | Swept(targets: set<Uuid>, at: Time)

  /** A refresh token in a client's hands: the id and the subject signed into it. */
  datatype Ticket = Ticket(jti: Uuid, subject: string)

  /** The committed rows, the open transactions, and the refresh tokens handed out so far. */
  datatype State = State(rows: TokenTable, work: map<nat, Work>, issued: set<Ticket>)

  const EMPTY := State(map[], map[], {})

  datatype Step =
    | Begin(id: nat, effect: Effect)
    | Execute(id: nat)
    | Commit(id: nat)
    | Abandon(id: nat)

  function LiveIn(rows: TokenTable, f: Uuid): set<Uuid> {
    set j | j in rows && rows[j].familyId == f && !rows[j].IsRevoked()
  }

  /** The row written by primary key: an earlier revocation time is lost. */
  function Overwrite(rows: TokenTable, j: Uuid, at: Time): TokenTable {
    if j in rows then rows[j := rows[j].(revokedAt := Some(at))] else rows
  }

  /** The bulk UPDATE checks revoked_at IS NULL again on every row it had picked. */
  function RevokeAll(rows: TokenTable, targets: set<Uuid>, at: Time): (r: TokenTable)
    ensures r.Keys == rows.Keys
  {
    map j | j in rows :: if j in targets then rows[j].Revoked(at) else rows[j]
  }

  /** The live rows that a bulk UPDATE selects. */
  function Matching(rows: TokenTable, e: Effect): set<Uuid>
    requires e.FamilyEnded? || e.UserEnded?
  {
    match e
    case FamilyEnded(f, _) => LiveIn(rows, f)
    case UserEnded(u, _) => LiveOf(rows, u)
  }

  function Execution(rows: TokenTable, w: Work): Work {
    if Bulk(w) then Swept(Matching(rows, w.effect), w.effect.when) else w
  }

  function Written(rows: TokenTable, w: Work): TokenTable {
    match w
    case Decided(Opened(row)) => rows[row.jti := row]
    case Decided(Rotated(prior, at, next)) => Overwrite(rows, prior, at)[next.jti := next]
    case Swept(targets, at) => RevokeAll(rows, targets, at)
    case _ => rows
  }

  /** The row that a transaction is going to insert. */
  function Added(w: Work): Option<TokenRow> {
    match w
    case Decided(Opened(row)) => Some(row)
    case Decided(Rotated(_, _, next)) => Some(next)
    case _ => None
  }

  /** The refresh token that a commit hands out. */
  function Handed(w: Work): set<Ticket> {
    if Added(w).Some? then {Ticket(Added(w).value.jti, Text(Added(w).value.userId))} else {}
  }

  predicate Bulk(w: Work) {
    w.Decided? && (w.effect.FamilyEnded? || w.effect.UserEnded?)
  }

  /** uuid4 values do not collide with those of open transactions either. */
  ghost predicate Apart(w: Work, other: Work) {
    Added(w).Some? && Added(other).Some? ==>
      && Added(w).value.jti != Added(other).value.jti
      && (w.effect.Opened? ==> Added(w).value.familyId != Added(other).value.familyId)
  }

  /** The presented token was issued, and its subject, not the record, names the owner of the successor. */
  ghost predicate Presented(s: State, prior: Uuid, owner: Uuid) {
    exists t :: t in s.issued && t.jti == prior && Parse(t.subject) == Some(owner)
  }

  /** What a handler can decide on the rows as committed when it reads them; uuid4 values are new. */
  ghost predicate Decides(s: State, e: Effect) {
    match e
    case Opened(row) => row.jti !in s.rows && !row.IsRevoked() && row.familyId !in Families(s.rows)
    case Rotated(prior, at, next) =>
      && Presented(s, prior, next.userId)
      && prior in s.rows && !s.rows[prior].IsRevoked()
      && next.jti !in s.rows && !next.IsRevoked() && next.familyId == s.rows[prior].familyId
    case _ => true
  }

  ghost predicate Enabled(s: State, step: Step) {
    match step
    case Begin(id, e) =>
      && id !in s.work && Decides(s, e)
      && forall k | k in s.work :: Apart(Decided(e), s.work[k]) && Apart(s.work[k], Decided(e))
    case Execute(id) => id in s.work && Bulk(s.work[id])
    case Commit(id) => id in s.work && !Bulk(s.work[id])
    case Abandon(id) => id in s.work
  }

  ghost function After(s: State, step: Step): State
    requires Enabled(s, step)
  {
    match step
    case Begin(id, e) => s.(work := s.work[id := Decided(e)])
    case Execute(id) => s.(work := s.work[id := Execution(s.rows, s.work[id])])
    case Commit(id) => State(Written(s.rows, s.work[id]), s.work - {id}, s.issued + Handed(s.work[id]))
    case Abandon(id) => s.(work := s.work - {id})
  }

  // ---------- what every interleaving keeps ----------

  ghost predicate Sound(rows: TokenTable, w: Work) {
    match w
    case Decided(Opened(row)) => row.jti !in rows && !row.IsRevoked() && row.familyId !in Families(rows)
    case Decided(Rotated(prior, at, next)) =>
      && prior in rows && next.jti !in rows && !next.IsRevoked()
      && next.familyId == rows[prior].familyId && next.userId == rows[prior].userId
    case _ => true
  }

  /** An issued token's subject is the owner of its record. */
  ghost predicate Backed(rows: TokenTable, issued: set<Ticket>) {
    forall t | t in issued :: t.jti in rows && t.subject == Text(rows[t.jti].userId)
  }

  ghost predicate Inv(s: State) {
    && Backed(s.rows, s.issued)
    && (forall j | j in s.rows :: s.rows[j].jti == j)
    && OneOwner(s.rows)
    && (forall k | k in s.work :: Sound(s.rows, s.work[k]))
    && (forall k, m | k in s.work && m in s.work && k != m :: Apart(s.work[k], s.work[m]))
  }

  /** Rows stay, keep their identity, and do not become unrevoked. */
  ghost predicate Monotone(rows: TokenTable, rows': TokenTable) {
    forall j | j in rows ::
      && j in rows'
      && rows'[j].(revokedAt := None) == rows[j].(revokedAt := None)
      && (rows[j].IsRevoked() ==> rows'[j].IsRevoked())
  }

  lemma WriteMonotone(rows: TokenTable, w: Work)
    requires Sound(rows, w)
    ensures Monotone(rows, Written(rows, w))
  {
  }

  lemma StepMonotone(s: State, step: Step)
    requires Inv(s) && Enabled(s, step)
    ensures Monotone(s.rows, After(s, step).rows)
  {
    if step.Commit? {
      WriteMonotone(s.rows, s.work[step.id]);
    }
  }

  lemma WriteKeepsOwner(rows: TokenTable, w: Work)
    requires (forall j | j in rows :: rows[j].jti == j) && OneOwner(rows) && Sound(rows, w)
    ensures var rows' := Written(rows, w); (forall j | j in rows' :: rows'[j].jti == j) && OneOwner(rows')
  {
    match w
    case Decided(Opened(row)) => OpenedOwner(Ledger(rows, []), row);
    case Decided(Rotated(prior, at, next)) =>
      var rows' := Written(rows, w);
      forall i, k | i in rows' && k in rows' && rows'[i].familyId == rows'[k].familyId
        ensures rows'[i].userId == rows'[k].userId
      {
        var i0, k0 := if i == next.jti then prior else i, if k == next.jti then prior else k;
        assert rows[i0].userId == rows[k0].userId;
      }
    case _ =>
  }

  /** Another transaction's write leaves a pending decision sound. */
  lemma WriteKeepsSound(rows: TokenTable, w: Work, other: Work)
    requires Sound(rows, w) && Sound(rows, other) && Apart(other, w)
    requires forall j | j in rows :: rows[j].jti == j
    ensures Sound(Written(rows, w), other)
  {
    var rows' := Written(rows, w);
    WriteMonotone(rows, w);
    forall j | j in rows' ensures j in rows || (Added(w).Some? && j == Added(w).value.jti) {
    }
    if other.Decided? && other.effect.Opened? {
      var f := other.effect.first.familyId;
      forall j | j in rows' ensures rows'[j].familyId != f {
        if j in rows {
          InFamilies(rows, j);
        } else if w.effect.Rotated? {
          InFamilies(rows, w.effect.prior);
        }
      }
    }
  }

  /** The owner that a token's subject names is the owner of the presented record. */
  lemma DecisionSound(s: State, e: Effect)
    requires Inv(s) && Decides(s, e)
    ensures Permitted(Ledger(s.rows, []), e) && Sound(s.rows, Decided(e))
  {
    hide Parse, Text, OneOwner, Apart;
    if e.Rotated? {
      TextRoundTrip(s.rows[e.prior].userId);
    }
  }

  lemma WriteKeepsBacked(rows: TokenTable, issued: set<Ticket>, w: Work)
    requires Backed(rows, issued) && Sound(rows, w)
    ensures Backed(Written(rows, w), issued + Handed(w))
  {
    hide Parse, Text;
    WriteMonotone(rows, w);
  }

  lemma StepKeepsInv(s: State, step: Step)
    requires Inv(s) && Enabled(s, step)
    ensures Inv(After(s, step))
  {
    hide Parse, Text, Presented;
    if step.Begin? {
      DecisionSound(s, step.effect);
    } else if step.Commit? {
      var w := s.work[step.id];
      WriteKeepsBacked(s.rows, s.issued, w);
      WriteKeepsOwner(s.rows, w);
      forall k | k in s.work && k != step.id ensures Sound(Written(s.rows, w), s.work[k]) {
        WriteKeepsSound(s.rows, w, s.work[k]);
      }
    }
  }

  // ---------- runs ----------

  datatype Run = Run(states: seq<State>, steps: seq<Step>)

  ghost predicate IsPath(r: Run) {
    && |r.states| == |r.steps| + 1
    && forall i | 0 <= i < |r.steps| :: Linked(r, i)
  }

  ghost predicate IsRun(r: Run) {
    IsPath(r) && r.states[0] == EMPTY
  }

  ghost predicate Linked(r: Run, i: nat)
    requires i < |r.steps| < |r.states|
  {
    Enabled(r.states[i], r.steps[i]) && r.states[i + 1] == After(r.states[i], r.steps[i])
  }

  lemma {:induction false} Reaches(r: Run, n: nat)
    requires IsRun(r) && n <= |r.steps|
    ensures Inv(r.states[n])
  {
    if n > 0 {
      Reaches(r, n - 1);
      assert Linked(r, n - 1);
      StepKeepsInv(r.states[n - 1], r.steps[n - 1]);
    }
  }

  /** Under every interleaving: a committed record stays, its jti, user, family and expiry never change, and once
      revoked it stays revoked. */
  lemma {:induction false} MonotoneRows(r: Run, i: nat, k: nat)
    requires IsRun(r) && i <= k <= |r.steps|
    ensures Monotone(r.states[i].rows, r.states[k].rows)
  {
    if i < k {
      MonotoneRows(r, i, k - 1);
      Reaches(r, k - 1);
      assert Linked(r, k - 1);
      StepMonotone(r.states[k - 1], r.steps[k - 1]);
    }
  }

  /** Under every interleaving all records of a family belong to one user. */
  lemma OwnerUnderInterleaving(r: Run, n: nat, i: Uuid, k: Uuid)
    requires IsRun(r) && n <= |r.steps|
    requires i in r.states[n].rows && k in r.states[n].rows
    requires r.states[n].rows[i].familyId == r.states[n].rows[k].familyId
    ensures r.states[n].rows[i].userId == r.states[n].rows[k].userId
  {
    Reaches(r, n);
  }

  // ---------- stale commits: where atomicity was needed ----------

  /** A rotation that commits although its record has been revoked since it was read. */
  ghost predicate Stale(s: State, step: Step) {
    && step.Commit? && step.id in s.work
    && var w := s.work[step.id];
       w.Decided? && w.effect.Rotated? && w.effect.prior in s.rows && s.rows[w.effect.prior].IsRevoked()
  }

  ghost predicate Opens(s: State, step: Step, f: Uuid) {
    && step.Commit? && step.id in s.work
    && var w := s.work[step.id];
       w.Decided? && w.effect.Opened? && w.effect.first.familyId == f
  }

  lemma RotationCount(rows: TokenTable, prior: Uuid, at: Time, next: TokenRow)
    requires Sound(rows, Decided(Rotated(prior, at, next)))
    ensures |LiveIn(Written(rows, Decided(Rotated(prior, at, next))), next.familyId)|
      == |LiveIn(rows, next.familyId)| + if rows[prior].IsRevoked() then 1 else 0
  {
    var f, rows' := next.familyId, Overwrite(rows, prior, at);
    assert rows'.Keys == rows.Keys;
    assert LiveIn(rows', f) == LiveIn(rows, f) - {prior};
    assert LiveIn(rows'[next.jti := next], f) == LiveIn(rows', f) + {next.jti};
  }

  lemma FewerLive(rows: TokenTable, rows': TokenTable, f: Uuid)
    requires LiveIn(rows', f) <= LiveIn(rows, f)
    ensures |LiveIn(rows', f)| <= |LiveIn(rows, f)|
  {
    assert LiveIn(rows, f) == LiveIn(rows', f) + (LiveIn(rows, f) - LiveIn(rows', f));
  }

  /** Exactly the stale commits give a family more live records than it had, opening it aside: one more each. */
  lemma LiveGrowsIff(s: State, step: Step, f: Uuid)
    requires Inv(s) && Enabled(s, step) && !Opens(s, step, f)
    ensures var before, after := |LiveIn(s.rows, f)|, |LiveIn(After(s, step).rows, f)|;
      && after <= before + 1
      && (after > before <==> Stale(s, step) && s.work[step.id].effect.successor.familyId == f)
  {
    if step.Commit? {
      var w := s.work[step.id];
      if w.Decided? && w.effect.Rotated? && w.effect.successor.familyId == f {
        RotationCount(s.rows, w.effect.prior, w.effect.at, w.effect.successor);
      } else {
        FewerLive(s.rows, After(s, step).rows, f);
      }
    }
  }

  /** A revocation time is overwritten exactly by a stale commit with another time. */
  lemma OverwritesIff(s: State, step: Step)
    requires Inv(s) && Enabled(s, step)
    ensures Evolves(s.rows, After(s, step).rows) <==>
      !(Stale(s, step) && s.rows[s.work[step.id].effect.prior].revokedAt != Some(s.work[step.id].effect.at))
  {
    if Stale(s, step) {
      var e := s.work[step.id].effect;
      assert After(s, step).rows[e.prior].revokedAt == Some(e.at);
    }
  }

  /** The family that a stale commit adds to. */
  function Victim(s: State, step: Step): Uuid
    requires step.Commit? && step.id in s.work && s.work[step.id].Decided? && s.work[step.id].effect.Rotated?
  {
    s.work[step.id].effect.successor.familyId
  }

  /** A stale commit in a family without a live record. */
  ghost predicate Revives(s: State, step: Step) {
    Stale(s, step) && LiveIn(s.rows, Victim(s, step)) == {}
  }

  /** A stale commit in a family with a live record. */
  ghost predicate Forks(s: State, step: Step) {
    Stale(s, step) && LiveIn(s.rows, Victim(s, step)) != {}
  }

  ghost predicate SingleLiveAt(s: State) {
    forall f: Uuid :: |LiveIn(s.rows, f)| <= 1
  }

  ghost predicate KeepsDead(s: State, s': State) {
    forall f: Uuid | Dead(s.rows, f) :: Dead(s'.rows, f)
  }

  lemma DeadIffNoneLive(rows: TokenTable, f: Uuid)
    requires f in Families(rows)
    ensures Dead(rows, f) <==> LiveIn(rows, f) == {}
  {
    if LiveIn(rows, f) == {} {
      assert forall j | j in rows && rows[j].familyId == f && !rows[j].IsRevoked() :: j in LiveIn(rows, f);
    } else {
      var j :| j in LiveIn(rows, f);
    }
  }

  lemma FamiliesStay(rows: TokenTable, rows': TokenTable, f: Uuid)
    requires Monotone(rows, rows') && f in Families(rows)
    ensures f in Families(rows')
  {
    var j :| j in rows && rows[j].familyId == f;
    InFamilies(rows', j);
  }

  /** A dead family comes back exactly by a stale commit in it. */
  lemma DeadAfter(s: State, step: Step, f: Uuid)
    requires Inv(s) && Enabled(s, step) && Dead(s.rows, f)
    ensures Dead(After(s, step).rows, f) <==> !(Stale(s, step) && Victim(s, step) == f)
  {
    var s' := After(s, step);
    StepMonotone(s, step);
    FamiliesStay(s.rows, s'.rows, f);
    DeadIffNoneLive(s.rows, f);
    DeadIffNoneLive(s'.rows, f);
    if Opens(s, step, f) {
      OpensOne(s.rows, s.work[step.id].effect.first);
    } else {
      LiveGrowsIff(s, step, f);
      assert LiveIn(s'.rows, f) == {} <==> |LiveIn(s'.rows, f)| == 0;
    }
  }

  lemma OpensOne(rows: TokenTable, row: TokenRow)
    requires Sound(rows, Decided(Opened(row)))
    ensures |LiveIn(Written(rows, Decided(Opened(row))), row.familyId)| == 1 && !Dead(rows, row.familyId)
  {
    forall j | j in rows ensures rows[j].familyId != row.familyId {
      InFamilies(rows, j);
    }
    assert LiveIn(Written(rows, Decided(Opened(row))), row.familyId) == {row.jti};
  }

  lemma KeepsDeadIff(s: State, step: Step)
    requires Inv(s) && Enabled(s, step)
    ensures KeepsDead(s, After(s, step)) <==> !Revives(s, step)
  {
    hide Inv, Enabled, After, Dead, LiveIn;
    forall f: Uuid | Dead(s.rows, f)
      ensures Dead(After(s, step).rows, f) <==> !(Stale(s, step) && Victim(s, step) == f)
    {
      DeadAfter(s, step, f);
    }
    if Stale(s, step) {
      StaleFamily(s, step);
      DeadIffNoneLive(s.rows, Victim(s, step));
    }
    forall f: Uuid | Dead(s.rows, f) ensures LiveIn(s.rows, f) == {} {
      DeadExists(s.rows, f);
      DeadIffNoneLive(s.rows, f);
    }
  }

  lemma StaleFamily(s: State, step: Step)
    requires Inv(s) && Stale(s, step)
    ensures Victim(s, step) in Families(s.rows)
  {
    InFamilies(s.rows, s.work[step.id].effect.prior);
  }

  lemma DeadExists(rows: TokenTable, f: Uuid)
    requires Dead(rows, f)
    ensures f in Families(rows)
  {
  }

  lemma LiveAfter(s: State, step: Step, f: Uuid)
    requires Inv(s) && Enabled(s, step) && |LiveIn(s.rows, f)| <= 1
    ensures |LiveIn(After(s, step).rows, f)| <= 1 <==>
      !(Stale(s, step) && Victim(s, step) == f && |LiveIn(s.rows, f)| == 1)
  {
    if Opens(s, step, f) {
      OpensOne(s.rows, s.work[step.id].effect.first);
    } else {
      LiveGrowsIff(s, step, f);
    }
  }

  lemma KeepsSingleIff(s: State, step: Step)
    requires Inv(s) && Enabled(s, step) && SingleLiveAt(s)
    ensures SingleLiveAt(After(s, step)) <==> !Forks(s, step)
  {
    hide Inv, Enabled, After, LiveIn;
    forall f: Uuid ensures |LiveIn(After(s, step).rows, f)| <= 1 <==>
      !(Stale(s, step) && Victim(s, step) == f && |LiveIn(s.rows, f)| == 1)
    {
      LiveAfter(s, step, f);
    }
    if Stale(s, step) {
      var live := LiveIn(s.rows, Victim(s, step));
      assert live == {} <==> |live| == 0;
      assert |live| <= 1;
    }
  }

  /** Step n brings no dead family back. */
  ghost predicate DeadStay(r: Run, n: nat)
    requires n < |r.steps| < |r.states|
  {
    KeepsDead(r.states[n], r.states[n + 1])
  }

  /** Dead families stay dead over a run if and only if no rotation commits in a family without a live record after its
      own record was revoked. */
  lemma DeadFamiliesIff(r: Run)
    requires IsRun(r)
    ensures (forall n | 0 <= n < |r.steps| :: DeadStay(r, n)) <==>
      forall n | 0 <= n < |r.steps| :: !Revives(r.states[n], r.steps[n])
  {
    hide KeepsDead, Revives, Inv, Enabled, After;
    forall n | 0 <= n < |r.steps|
      ensures DeadStay(r, n) <==> !Revives(r.states[n], r.steps[n])
    {
      Reaches(r, n);
      assert Linked(r, n);
      KeepsDeadIff(r.states[n], r.steps[n]);
    }
  }

  lemma {:induction false} SinglePrefix(r: Run, n: nat)
    requires IsRun(r) && n <= |r.steps| && forall m | 0 <= m < n :: !Forks(r.states[m], r.steps[m])
    ensures SingleLiveAt(r.states[n])
  {
    if n > 0 {
      SinglePrefix(r, n - 1);
      Reaches(r, n - 1);
      assert Linked(r, n - 1);
      KeepsSingleIff(r.states[n - 1], r.steps[n - 1]);
    }
  }

  /** Every family has at most one live record throughout a run if and only if no rotation commits in a family with a
      live record after its own record was revoked. */
  lemma SingleLiveIff(r: Run)
    requires IsRun(r)
    ensures (forall n | 0 <= n <= |r.steps| :: SingleLiveAt(r.states[n])) <==>
      forall n | 0 <= n < |r.steps| :: !Forks(r.states[n], r.steps[n])
  {
    hide SingleLiveAt, Forks, Inv, Enabled, After;
    if forall n | 0 <= n < |r.steps| :: !Forks(r.states[n], r.steps[n]) {
      forall n | 0 <= n <= |r.steps| ensures SingleLiveAt(r.states[n]) {
        SinglePrefix(r, n);
      }
    } else {
      var n :| 0 <= n < |r.steps| && Forks(r.states[n], r.steps[n]);
      Reaches(r, n);
      assert Linked(r, n);
      if SingleLiveAt(r.states[n]) {
        KeepsSingleIff(r.states[n], r.steps[n]);
      }
    }
  }

  /** Both hold if and only if no rotation commits after its record was revoked. */
  lemma AtomicityIff(r: Run)
    requires IsRun(r)
    ensures (forall n | 0 <= n < |r.steps| :: !Stale(r.states[n], r.steps[n])) <==>
      && (forall n | 0 <= n <= |r.steps| :: SingleLiveAt(r.states[n]))
      && (forall n | 0 <= n < |r.steps| :: DeadStay(r, n))
  {
    SingleLiveIff(r);
    DeadFamiliesIff(r);
    hide SingleLiveAt, DeadStay, Stale, Linked, Revives, Forks;
    forall n | 0 <= n < |r.steps|
      ensures Stale(r.states[n], r.steps[n]) <==>
        Revives(r.states[n], r.steps[n]) || Forks(r.states[n], r.steps[n])
    {
      RevivesOrForks(r.states[n], r.steps[n]);
    }
  }

  lemma RevivesOrForks(s: State, step: Step)
    ensures Stale(s, step) <==> Revives(s, step) || Forks(s, step)
  {
  }
}
