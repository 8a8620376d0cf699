/** Runs of the token table alone: sequences of permitted effects from the empty ledger. */
module LedgerTraces {
  import opened Wrappers
  import opened Uuids
  import opened Rows
  import opened Ledger

  datatype Trace = Trace(ledgers: seq<Ledger>, effects: seq<Effect>)

  ghost predicate IsTrace(t: Trace) {
    && |t.ledgers| == |t.effects| + 1
    && t.ledgers[0] == Ledger(map[], [])
    && forall i | 0 <= i < |t.effects| :: Linked(t, i)
  }

  ghost predicate Linked(t: Trace, i: nat)
    requires i < |t.effects| < |t.ledgers|
  {
    Permitted(t.ledgers[i], t.effects[i]) && t.ledgers[i + 1] == Apply(t.ledgers[i], t.effects[i])
  }

  function Table(t: Trace, i: nat): TokenTable
    requires i < |t.ledgers|
  {
    t.ledgers[i].rows
  }

  lemma {:induction false} AlwaysValid(t: Trace, n: nat)
    requires IsTrace(t) && n <= |t.effects|
    ensures Valid(t.ledgers[n])
  {
    if n > 0 {
      AlwaysValid(t, n - 1);
      assert Linked(t, n - 1);
      ApplyValid(t.ledgers[n - 1], t.effects[n - 1]);
    }
  }

  /** Between any two points, records keep their identity and revocation is write-once. */
  lemma {:induction false} Monotone(t: Trace, i: nat, k: nat)
    requires IsTrace(t) && i <= k <= |t.effects|
    ensures Evolves(Table(t, i), Table(t, k))
    decreases k
  {
    if i < k {
      Monotone(t, i, k - 1);
      assert Linked(t, k - 1);
      ApplyEvolves(t.ledgers[k - 1], t.effects[k - 1]);
      EvolvesTwice(Table(t, i), Table(t, k - 1), Table(t, k));
    }
  }

  lemma EvolvesTwice(a: TokenTable, b: TokenTable, c: TokenTable)
    requires Evolves(a, b) && Evolves(b, c)
    ensures Evolves(a, c)
  {
  }

  /** A family without a live record never gets one again. */
  lemma {:induction false} DeadForever(t: Trace, i: nat, k: nat, f: Uuid)
    requires IsTrace(t) && i <= k <= |t.effects| && Dead(Table(t, i), f)
    ensures Dead(Table(t, k), f)
    decreases k
  {
    if i < k {
      DeadForever(t, i, k - 1, f);
      assert Linked(t, k - 1);
      DeadStays(t.ledgers[k - 1], t.effects[k - 1], f);
    }
  }

  /** Effect i rotates record j out. */
  ghost predicate RotatesOut(t: Trace, i: nat, j: Uuid)
    requires i < |t.effects|
  {
    t.effects[i].Rotated? && t.effects[i].prior == j
  }

  lemma RotatedOutStays(t: Trace, i: nat, k: nat, j: Uuid)
    requires IsTrace(t) && i < k <= |t.effects| && RotatesOut(t, i, j)
    ensures j in Table(t, k) && Table(t, k)[j].IsRevoked()
  {
    assert Linked(t, i);
    Monotone(t, i + 1, k);
  }

  lemma RotatedOutOnce(t: Trace, i: nat, k: nat, j: Uuid)
    requires IsTrace(t) && i < |t.effects| && k < |t.effects| && RotatesOut(t, i, j) && RotatesOut(t, k, j)
    ensures i == k
  {
    assert Linked(t, i) && Linked(t, k);
    if i < k { RotatedOutStays(t, i, k, j); }
    if k < i { RotatedOutStays(t, k, i, j); }
  }

  // ---------- chains of rotations ----------

  /** The record an effect inserts. */
  function Inserted(e: Effect): Option<TokenRow> {
    match e
    case Opened(row) => Some(row)
    case Rotated(_, _, row) => Some(row)
    case _ => None
  }

  ghost predicate Inserts(t: Trace, i: nat, j: Uuid)
    requires i < |t.effects|
  {
    Inserted(t.effects[i]).Some? && Inserted(t.effects[i]).value.jti == j
  }

  lemma {:induction false} InsertedEarlier(t: Trace, n: nat, j: Uuid) returns (k: nat)
    requires IsTrace(t) && n <= |t.effects| && j in Table(t, n)
    ensures k < n && Inserts(t, k, j)
  {
    assert n > 0 ==> Linked(t, n - 1);
    if j in Table(t, n - 1) {
      k := InsertedEarlier(t, n - 1, j);
    } else {
      k := n - 1;
    }
  }

  /** An opening of a family followed by rotations, each rotating out the record the effect before it inserted. */
  ghost predicate Chain(t: Trace, c: seq<nat>) {
    && c != [] && (forall m | 0 <= m < |c| :: c[m] < |t.effects|)
    && t.effects[c[0]].Opened?
    && forall m | 0 <= m < |c| - 1 :: Succeeds(t, c[m], c[m + 1])
  }

  ghost predicate Succeeds(t: Trace, i: nat, k: nat)
    requires i < |t.effects| && k < |t.effects|
  {
    t.effects[k].Rotated? && Inserts(t, i, t.effects[k].prior)
  }

  lemma {:induction false} ChainTo(t: Trace, i: nat) returns (c: seq<nat>)
    requires IsTrace(t) && i < |t.effects| && Inserted(t.effects[i]).Some?
    ensures Chain(t, c) && c[|c| - 1] == i
    decreases i
  {
    if t.effects[i].Opened? {
      c := [i];
    } else {
      assert Linked(t, i);
      var k := InsertedEarlier(t, i, t.effects[i].prior);
      var c' := ChainTo(t, k);
      c := c' + [i];
      forall m | 0 <= m < |c| - 1 ensures Succeeds(t, c[m], c[m + 1]) {
        assert m < |c'| - 1 ==> Succeeds(t, c'[m], c'[m + 1]);
      }
    }
  }

  /** One rotation of a chain: later in the run, same family. */
  lemma SucceedsLater(t: Trace, i: nat, k: nat)
    requires IsTrace(t) && i < |t.effects| && k < |t.effects| && Succeeds(t, i, k)
    ensures i < k
    ensures Inserted(t.effects[k]).value.familyId == Inserted(t.effects[i]).value.familyId
  {
    var j := t.effects[k].prior;
    assert Linked(t, i) && Linked(t, k);
    if k <= i {
      Monotone(t, k, i);
    } else {
      Monotone(t, i + 1, k);
    }
  }

  lemma {:induction false} ChainFamily(t: Trace, c: seq<nat>, m: nat, n: nat)
    requires IsTrace(t) && Chain(t, c) && m <= n < |c|
    ensures c[m] <= c[n] && (m < n ==> c[m] < c[n])
    ensures Inserted(t.effects[c[m]]).Some? && Inserted(t.effects[c[n]]).Some?
    ensures Inserted(t.effects[c[m]]).value.familyId == Inserted(t.effects[c[n]]).value.familyId
    decreases n
  {
    if m < n {
      ChainFamily(t, c, m, n - 1);
      assert Succeeds(t, c[n - 1], c[n - 1 + 1]);
      SucceedsLater(t, c[n - 1], c[n]);
    } else if n > 0 {
      assert Succeeds(t, c[n - 1], c[n - 1 + 1]);
    }
  }

  /** If a family that exists when all of u's records are revoked ever holds a record of u, it is dead from then on. */
  lemma FamilyDies(t: Trace, i: nat, u: Uuid, at: Time, a: Uuid, n: nat, b: Uuid)
    requires IsTrace(t) && i < n <= |t.effects| && t.effects[i] == UserEnded(u, at)
    requires a in Table(t, i) && b in Table(t, n)
    requires Table(t, i)[a].familyId == Table(t, n)[b].familyId && Table(t, n)[b].userId == u
    ensures Dead(Table(t, i + 1), Table(t, n)[b].familyId)
  {
    var f := Table(t, n)[b].familyId;
    assert Linked(t, i);
    AlwaysValid(t, n);
    Monotone(t, i + 1, n);
    var rows := Table(t, i + 1);
    assert a in rows && rows[a].familyId == f;
    InFamilies(rows, a);
    forall j | j in rows && rows[j].familyId == f ensures rows[j].IsRevoked() {
      assert Table(t, n)[j].userId == Table(t, n)[b].userId;
      assert Table(t, i)[j].userId == u;
    }
  }

  /** After all of u's records are revoked at i, a rotation for u belongs to a chain that lies wholly after i. */
  lemma CutOff(t: Trace, i: nat, u: Uuid, at: Time, c: seq<nat>, m: nat)
    requires IsTrace(t) && i < |t.effects| && t.effects[i] == UserEnded(u, at)
    requires Chain(t, c) && m < |c| && i < c[|c| - 1] && Inserted(t.effects[c[|c| - 1]]).Some?
    requires Inserted(t.effects[c[|c| - 1]]).value.userId == u
    ensures c[m] > i
  {
    var last := c[|c| - 1];
    ChainFamily(t, c, m, |c| - 1);
    if c[m] < i {
      var a, b := Inserted(t.effects[c[m]]).value, Inserted(t.effects[last]).value;
      assert Linked(t, c[m]) && Linked(t, last);
      Monotone(t, c[m] + 1, i);
      FamilyDies(t, i, u, at, a.jti, last + 1, b.jti);
      DeadForever(t, i + 1, last, b.familyId);
    }
  }
}
