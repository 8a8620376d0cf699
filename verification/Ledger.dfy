/** The refresh-token table as a ledger: the rows by jti, and the jtis in the order their rows were inserted. Every
    command that touches the table has one of the effects below; the guarantees of token families are proved here, for
    any sequence of effects. */
module Ledger {
  import opened Wrappers
  import opened Uuids
  import opened Rows

  datatype Ledger = Ledger(rows: TokenTable, log: seq<Uuid>)

  datatype Effect =
    | Nothing
    | Opened(first: TokenRow)
    | Rotated(prior: Uuid, at: Time, successor: TokenRow)
    | FamilyEnded(family: Uuid, when: Time)
    | UserEnded(user: Uuid, when: Time)

  /** UPDATE ... SET revoked_at = at WHERE family_id = family AND revoked_at IS NULL. */
  function RevokeFamily(rows: TokenTable, family: Uuid, at: Time): (r: TokenTable)
    ensures r.Keys == rows.Keys
  {
    map j | j in rows :: if rows[j].familyId == family then rows[j].Revoked(at) else rows[j]
  }

  /** UPDATE ... SET revoked_at = at WHERE user_id = user AND revoked_at IS NULL. */
  function RevokeUser(rows: TokenTable, user: Uuid, at: Time): (r: TokenTable)
    ensures r.Keys == rows.Keys
  {
    map j | j in rows :: if rows[j].userId == user then rows[j].Revoked(at) else rows[j]
  }

  /** The row with this jti, revoked. */
  function Update(rows: TokenTable, j: Uuid, at: Time): TokenTable {
    if j in rows then rows[j := rows[j].Revoked(at)] else rows
  }

  function Apply(l: Ledger, e: Effect): Ledger {
    match e
    case Nothing => l
    case Opened(row) => Ledger(l.rows[row.jti := row], l.log + [row.jti])
    case Rotated(prior, at, next) =>
      Ledger(Update(l.rows, prior, at)[next.jti := next], l.log + [next.jti])
    case FamilyEnded(f, at) => l.(rows := RevokeFamily(l.rows, f, at))
    case UserEnded(u, at) => l.(rows := RevokeUser(l.rows, u, at))
  }

  function Families(rows: TokenTable): set<Uuid> {
    set j | j in rows :: rows[j].familyId
  }

  function Members(rows: TokenTable, f: Uuid): set<Uuid> {
    set j | j in rows && rows[j].familyId == f
  }

  function LiveOf(rows: TokenTable, u: Uuid): set<Uuid> {
    set j | j in rows && rows[j].userId == u && !rows[j].IsRevoked()
  }

  /** What the commands guarantee about the effects they have. */
  ghost predicate Permitted(l: Ledger, e: Effect) {
    match e
    case Nothing => true
    case Opened(row) => row.jti !in l.rows && !row.IsRevoked() && row.familyId !in Families(l.rows)
    case Rotated(prior, at, next) =>
      && prior in l.rows && !l.rows[prior].IsRevoked()
      && next.jti !in l.rows && !next.IsRevoked()
      && next.familyId == l.rows[prior].familyId && next.userId == l.rows[prior].userId
    case FamilyEnded(f, at) => true
    case UserEnded(u, at) => true
  }

  // ---------- the invariant ----------

  ghost predicate Keyed(l: Ledger) {
    forall j | j in l.rows :: l.rows[j].jti == j
  }

  ghost predicate Logged(l: Ledger) {
    && (forall i | 0 <= i < |l.log| :: l.log[i] in l.rows)
    && (forall j | j in l.rows :: j in l.log)
    && (forall i, k | 0 <= i < k < |l.log| :: l.log[i] != l.log[k])
  }

  /** All records of a family belong to one user. */
  ghost predicate OneOwner(rows: TokenTable) {
    forall i, k | i in rows && k in rows && rows[i].familyId == rows[k].familyId :: rows[i].userId == rows[k].userId
  }

  /** A record followed by a later one of its family is revoked. */
  ghost predicate OnlyLatestLive(l: Ledger)
    requires Logged(l)
  {
    forall i, k | 0 <= i < k < |l.log| && l.rows[l.log[i]].familyId == l.rows[l.log[k]].familyId ::
      l.rows[l.log[i]].IsRevoked()
  }

  ghost predicate Valid(l: Ledger) {
    Keyed(l) && Logged(l) && OneOwner(l.rows) && OnlyLatestLive(l)
  }

  lemma InFamilies(rows: TokenTable, j: Uuid)
    requires j in rows
    ensures rows[j].familyId in Families(rows)
  {
  }

  lemma AppendLogged(l: Ledger, rows: TokenTable, row: TokenRow)
    requires Logged(l) && row.jti !in l.rows && rows.Keys == l.rows.Keys + {row.jti}
    ensures Logged(Ledger(rows, l.log + [row.jti]))
  {
    var log := l.log + [row.jti];
    forall j | j in rows ensures j in log {
      if j == row.jti {
        assert log[|l.log|] == j;
      } else {
        assert j in l.rows;
        assert j in l.log;
      }
    }
  }

  lemma OpenedOwner(l: Ledger, row: TokenRow)
    requires OneOwner(l.rows) && Permitted(l, Opened(row))
    ensures OneOwner(Apply(l, Opened(row)).rows)
  {
    forall j | j in l.rows ensures l.rows[j].familyId != row.familyId {
      InFamilies(l.rows, j);
    }
  }

  lemma OpenedLatest(l: Ledger, row: TokenRow)
    requires Logged(l) && OnlyLatestLive(l) && Permitted(l, Opened(row))
    requires Logged(Apply(l, Opened(row)))
    ensures OnlyLatestLive(Apply(l, Opened(row)))
  {
    var l' := Apply(l, Opened(row));
    forall i, k | 0 <= i < k < |l'.log| && l'.rows[l'.log[i]].familyId == l'.rows[l'.log[k]].familyId
      ensures l'.rows[l'.log[i]].IsRevoked()
    {
      assert l'.log[i] == l.log[i];
      InFamilies(l.rows, l.log[i]);
      assert k < |l.log| && l'.log[k] == l.log[k];
    }
  }

  lemma RotatedOwner(l: Ledger, prior: Uuid, at: Time, next: TokenRow)
    requires OneOwner(l.rows) && Permitted(l, Rotated(prior, at, next))
    ensures OneOwner(Apply(l, Rotated(prior, at, next)).rows)
  {
    var rows' := Apply(l, Rotated(prior, at, next)).rows;
    forall i, k | i in rows' && k in rows' && rows'[i].familyId == rows'[k].familyId
      ensures rows'[i].userId == rows'[k].userId
    {
      var i0, k0 := if i == next.jti then prior else i, if k == next.jti then prior else k;
      assert l.rows[i0].userId == l.rows[k0].userId;
    }
  }

  lemma RotatedLatest(l: Ledger, prior: Uuid, at: Time, next: TokenRow)
    requires Keyed(l) && Logged(l) && OnlyLatestLive(l) && Permitted(l, Rotated(prior, at, next))
    requires Logged(Apply(l, Rotated(prior, at, next)))
    ensures OnlyLatestLive(Apply(l, Rotated(prior, at, next)))
  {
    var l' := Apply(l, Rotated(prior, at, next));
    forall i, k | 0 <= i < k < |l'.log| && l'.rows[l'.log[i]].familyId == l'.rows[l'.log[k]].familyId
      ensures l'.rows[l'.log[i]].IsRevoked()
    {
      assert l'.log[i] == l.log[i];
      if k < |l.log| {
        assert l'.log[k] == l.log[k];
      } else if l.log[i] != prior {
        LatestIsLive(l, prior, i);
      }
    }
  }

  lemma LatestIsLive(l: Ledger, j: Uuid, i: nat)
    requires Logged(l) && OnlyLatestLive(l) && j in l.rows && !l.rows[j].IsRevoked()
    requires i < |l.log| && l.log[i] != j && l.rows[l.log[i]].familyId == l.rows[j].familyId
    ensures l.rows[l.log[i]].IsRevoked()
  {
    assert j in l.log;
    var k :| 0 <= k < |l.log| && l.log[k] == j;
  }

  lemma OpenedValid(l: Ledger, row: TokenRow)
    requires Valid(l) && Permitted(l, Opened(row))
    ensures Valid(Apply(l, Opened(row)))
  {
    AppendLogged(l, Apply(l, Opened(row)).rows, row);
    OpenedOwner(l, row);
    OpenedLatest(l, row);
  }

  lemma RotatedValid(l: Ledger, prior: Uuid, at: Time, next: TokenRow)
    requires Valid(l) && Permitted(l, Rotated(prior, at, next))
    ensures Valid(Apply(l, Rotated(prior, at, next)))
  {
    AppendLogged(l, Apply(l, Rotated(prior, at, next)).rows, next);
    RotatedOwner(l, prior, at, next);
    RotatedLatest(l, prior, at, next);
  }

  lemma RevokedValid(l: Ledger, rows: TokenTable)
    requires Valid(l) && rows.Keys == l.rows.Keys && Evolves(l.rows, rows)
    ensures Valid(Ledger(rows, l.log))
  {
    assert forall j | j in rows :: j in l.rows;
  }

  /** Every permitted effect keeps the invariant: single owner per family, and only the newest record of a family can
      be live. */
  lemma ApplyValid(l: Ledger, e: Effect)
    requires Valid(l) && Permitted(l, e)
    ensures Valid(Apply(l, e))
  {
    match e
    case Nothing =>
    case Opened(row) => OpenedValid(l, row);
    case Rotated(prior, at, next) => RotatedValid(l, prior, at, next);
    case FamilyEnded(f, at) => RevokedValid(l, RevokeFamily(l.rows, f, at));
    case UserEnded(u, at) => RevokedValid(l, RevokeUser(l.rows, u, at));
  }

  /** In every valid ledger a family has at most one live record, and it is the one inserted last. */
  lemma SingleLive(l: Ledger, i: Uuid, k: Uuid)
    requires Valid(l) && i in l.rows && k in l.rows && l.rows[i].familyId == l.rows[k].familyId
    requires !l.rows[i].IsRevoked()
    ensures !l.rows[k].IsRevoked() ==> k == i
    ensures forall a, b | 0 <= a < |l.log| && 0 <= b < |l.log| && l.log[a] == i && l.log[b] == k :: b <= a
  {
    assert i in l.log && k in l.log;
  }

  // ---------- monotone revocation ----------

  /** Records are never removed, never change identity, and revocation is write-once. */
  ghost predicate Evolves(rows: TokenTable, rows': TokenTable) {
    forall j | j in rows ::
      && j in rows'
      && rows'[j].(revokedAt := None) == rows[j].(revokedAt := None)
      && (rows[j].IsRevoked() ==> rows'[j] == rows[j])
  }

  lemma ApplyEvolves(l: Ledger, e: Effect)
    requires Permitted(l, e)
    ensures Evolves(l.rows, Apply(l, e).rows)
  {
  }

  // ---------- dead families ----------

  /** A family that exists and has no live record. */
  ghost predicate Dead(rows: TokenTable, f: Uuid) {
    && f in Families(rows)
    && forall j | j in rows && rows[j].familyId == f :: rows[j].IsRevoked()
  }

  /** No effect brings a dead family back. */
  lemma DeadStays(l: Ledger, e: Effect, f: Uuid)
    requires Permitted(l, e) && Dead(l.rows, f)
    ensures Dead(Apply(l, e).rows, f)
  {
    var j :| j in l.rows && l.rows[j].familyId == f;
    var rows' := Apply(l, e).rows;
    assert j in rows' && rows'[j].familyId == f;
    InFamilies(rows', j);
  }

  lemma EndFamily(l: Ledger, f: Uuid, at: Time)
    requires f in Families(l.rows)
    ensures Dead(Apply(l, FamilyEnded(f, at)).rows, f)
    ensures forall j | j in l.rows && l.rows[j].familyId != f :: Apply(l, FamilyEnded(f, at)).rows[j] == l.rows[j]
  {
    var rows' := RevokeFamily(l.rows, f, at);
    var j :| j in l.rows && l.rows[j].familyId == f;
    assert j in rows' && rows'[j].familyId == f;
    InFamilies(rows', j);
  }

  /** Ending a dead family changes nothing. */
  lemma EndDeadFamily(l: Ledger, f: Uuid, at: Time)
    requires Dead(l.rows, f)
    ensures Apply(l, FamilyEnded(f, at)) == l
  {
    assert RevokeFamily(l.rows, f, at) == l.rows;
  }
}
