/** What overlapping transactions can and cannot do to redeem-once and to the bulk revocations of logout, replay and
    password change: the exact conditions, over whole runs of Interleaved. */
module Overlaps {
  import opened Wrappers
  import opened Uuids
  import opened Rows
  import opened Ledger
  import opened Interleaved

  // ---------- from Begin to Commit ----------

  /** Transaction `id` is open at step i and neither commits nor is abandoned before step k. */
  ghost predicate OpenFor(r: Run, id: nat, i: nat, k: nat)
    requires |r.states| == |r.steps| + 1
  {
    && i <= k <= |r.steps| && id in r.states[i].work
    && forall m | i <= m < k :: r.steps[m] != Commit(id) && r.steps[m] != Abandon(id)
  }

  lemma {:induction false} StaysOpen(r: Run, id: nat, i: nat, k: nat)
    requires IsPath(r) && OpenFor(r, id, i, k)
    ensures id in r.states[k].work
    ensures !Bulk(r.states[i].work[id]) ==> r.states[k].work[id] == r.states[i].work[id]
  {
    if i < k {
      StaysOpen(r, id, i, k - 1);
      assert Linked(r, k - 1);
    }
  }

  /** Step b begins the transaction that step m commits. */
  ghost predicate Spans(r: Run, b: nat, m: nat)
    requires |r.states| == |r.steps| + 1
  {
    && b < m < |r.steps| && r.steps[b].Begin? && r.steps[m] == Commit(r.steps[b].id)
    && OpenFor(r, r.steps[b].id, b + 1, m)
  }

  lemma {:induction false} BegunBy(r: Run, id: nat, n: nat) returns (b: nat)
    requires IsRun(r) && n <= |r.steps| && id in r.states[n].work
    ensures b < n && r.steps[b].Begin? && r.steps[b].id == id && OpenFor(r, id, b + 1, n)
    ensures r.states[n].work[id].Decided? ==> r.states[n].work[id] == Decided(r.steps[b].effect)
  {
    assert n > 0 && Linked(r, n - 1);
    if r.steps[n - 1].Begin? && r.steps[n - 1].id == id {
      b := n - 1;
    } else {
      b := BegunBy(r, id, n - 1);
    }
  }

  /** A committed transaction has one beginning. */
  lemma OneBegin(r: Run, b: nat, c: nat, m: nat)
    requires IsPath(r) && Spans(r, b, m) && Spans(r, c, m)
    ensures b == c
  {
    var first, second := if b < c then b else c, if b < c then c else b;
    if first < second {
      assert Linked(r, second);
      StaysOpen(r, r.steps[m].id, first + 1, second);
    }
  }

  /** Step m inserts record j. */
  ghost predicate Inserts(r: Run, m: nat, j: Uuid)
    requires m < |r.steps| < |r.states|
  {
    && r.steps[m].Commit? && r.steps[m].id in r.states[m].work
    && var added := Added(r.states[m].work[r.steps[m].id]);
       added.Some? && added.value.jti == j
  }

  /** The record is new, and as the transaction decided. */
  lemma InsertsNew(r: Run, m: nat, j: Uuid)
    requires IsRun(r) && m < |r.steps| && Inserts(r, m, j)
    ensures j !in r.states[m].rows && j in r.states[m + 1].rows
    ensures Some(r.states[m + 1].rows[j]) == Added(r.states[m].work[r.steps[m].id])
    ensures !r.states[m + 1].rows[j].IsRevoked()
  {
    Reaches(r, m);
    assert Linked(r, m);
    assert Sound(r.states[m].rows, r.states[m].work[r.steps[m].id]);
  }

  lemma {:induction false} InsertedBy(r: Run, n: nat, j: Uuid) returns (m: nat)
    requires IsRun(r) && n <= |r.steps| && j in r.states[n].rows
    ensures m < n && Inserts(r, m, j)
  {
    assert n > 0 && Linked(r, n - 1);
    if j in r.states[n - 1].rows {
      m := InsertedBy(r, n - 1, j);
    } else {
      m := n - 1;
    }
  }

  lemma OneInsert(r: Run, m: nat, n: nat, j: Uuid)
    requires IsRun(r) && m < |r.steps| && n < |r.steps| && Inserts(r, m, j) && Inserts(r, n, j)
    ensures m == n
  {
    InsertsNew(r, m, j);
    InsertsNew(r, n, j);
    if m < n {
      MonotoneRows(r, m + 1, n);
    } else if n < m {
      MonotoneRows(r, n + 1, m);
    }
  }

  // ---------- redeeming twice ----------

  ghost predicate Rotates(w: Work, prior: Uuid) {
    w.Decided? && w.effect.Rotated? && w.effect.prior == prior
  }

  /** Step i commits a refresh of the token with id `prior`. */
  ghost predicate RotatesAt(r: Run, i: nat, prior: Uuid)
    requires i < |r.steps| < |r.states|
  {
    r.steps[i].Commit? && r.steps[i].id in r.states[i].work && Rotates(r.states[i].work[r.steps[i].id], prior)
  }

  /** After a refresh of a token has committed, only a refresh that was open then can still commit one. */
  lemma {:induction false} RotationIsOld(r: Run, i: nat, n: nat, id: nat, prior: Uuid)
    requires IsRun(r) && i <= n <= |r.steps| && prior in r.states[i].rows && r.states[i].rows[prior].IsRevoked()
    requires id in r.states[n].work && Rotates(r.states[n].work[id], prior)
    ensures OpenFor(r, id, i, n) && Rotates(r.states[i].work[id], prior)
  {
    if i < n {
      assert Linked(r, n - 1);
      MonotoneRows(r, i, n - 1);
      RotationIsOld(r, i, n - 1, id, prior);
    }
  }

  /** The refresh committed in step k was open when the one of step i committed. */
  ghost predicate Overlaps(r: Run, i: nat, k: nat, prior: Uuid)
    requires |r.states| == |r.steps| + 1
  {
    && i < k < |r.steps| && RotatesAt(r, i, prior)
    && r.steps[k].Commit? && r.steps[k] != r.steps[i]
    && OpenFor(r, r.steps[k].id, i, k) && Rotates(r.states[i].work[r.steps[k].id], prior)
  }

  lemma RevokedByCommit(r: Run, i: nat, prior: Uuid)
    requires IsRun(r) && i < |r.steps| && RotatesAt(r, i, prior)
    ensures prior in r.states[i + 1].rows && r.states[i + 1].rows[prior].IsRevoked()
  {
    Reaches(r, i);
    assert Linked(r, i);
    assert Sound(r.states[i].rows, r.states[i].work[r.steps[i].id]);
  }

  lemma SecondRedeemIff(r: Run, i: nat, k: nat, prior: Uuid)
    requires IsRun(r) && i < k < |r.steps| && RotatesAt(r, i, prior)
    ensures RotatesAt(r, k, prior) <==> Overlaps(r, i, k, prior)
  {
    assert Linked(r, i);
    if RotatesAt(r, k, prior) {
      RevokedByCommit(r, i, prior);
      RotationIsOld(r, i + 1, k, r.steps[k].id, prior);
    } else if Overlaps(r, i, k, prior) {
      StaysOpen(r, r.steps[k].id, i, k);
    }
  }

  /** The exact condition for redeem-once: over a run a token is redeemed twice if and only if a refresh of it that was
      open while another one committed commits as well. */
  lemma RedeemTwiceIff(r: Run, prior: Uuid)
    requires IsRun(r)
    ensures (exists i, k | 0 <= i < k < |r.steps| :: RotatesAt(r, i, prior) && RotatesAt(r, k, prior)) <==>
      exists i, k | 0 <= i < k < |r.steps| :: Overlaps(r, i, k, prior)
  {
    forall i, k | 0 <= i < k < |r.steps|
      ensures RotatesAt(r, i, prior) && RotatesAt(r, k, prior) <==> Overlaps(r, i, k, prior)
    {
      if RotatesAt(r, i, prior) {
        SecondRedeemIff(r, i, k, prior);
      }
    }
  }

  /** Every refresh of a token after the first one to commit is stale. */
  lemma SecondRedeemIsStale(r: Run, i: nat, k: nat, prior: Uuid)
    requires IsRun(r) && i < k < |r.steps|
    requires RotatesAt(r, i, prior) && RotatesAt(r, k, prior)
    ensures Stale(r.states[k], r.steps[k])
  {
    RevokedByCommit(r, i, prior);
    MonotoneRows(r, i + 1, k);
  }

  // ---------- bulk revocation ----------

  /** Transaction `id` executes the UPDATE of e in step i and commits it in step k. */
  ghost predicate Sweeps(r: Run, id: nat, e: Effect, i: nat, k: nat)
    requires |r.states| == |r.steps| + 1
  {
    && i < k < |r.steps| && r.steps[i] == Execute(id) && r.steps[k] == Commit(id) && OpenFor(r, id, i, k)
    && r.states[i].work[id] == Decided(e) && (e.FamilyEnded? || e.UserEnded?)
  }

  /** The sweep revokes the rows that were live and matched when its UPDATE was executed, and no other. */
  lemma SweepWrites(r: Run, id: nat, e: Effect, i: nat, k: nat)
    requires IsRun(r) && Sweeps(r, id, e, i, k)
    ensures id in r.states[k].work && Added(r.states[k].work[id]).None?
    ensures r.states[k + 1].rows == RevokeAll(r.states[k].rows, Matching(r.states[i].rows, e), e.when)
  {
    assert Linked(r, i);
    StaysOpen(r, id, i + 1, k);
    assert Linked(r, k);
  }

  /** A logout, a replay or a password change leaves none of its records live exactly if no live one was committed
      between the UPDATE and its commit: the UPDATE does not see the successor that a concurrent refresh inserts. */
  lemma SweepEndsIff(r: Run, id: nat, e: Effect, i: nat, k: nat)
    requires IsRun(r) && Sweeps(r, id, e, i, k)
    ensures Matching(r.states[k + 1].rows, e) == {} <==>
      forall j | j in Matching(r.states[k].rows, e) :: j in r.states[i].rows
  {
    var rows, targets := r.states[k].rows, Matching(r.states[i].rows, e);
    SweepWrites(r, id, e, i, k);
    var rows' := RevokeAll(rows, targets, e.when);
    MonotoneRows(r, i, k);
    forall j | j in Matching(rows, e) ensures j in r.states[i].rows <==> j !in Matching(rows', e) {
      assert j in r.states[i].rows ==> j in targets;
    }
    assert Matching(rows', e) <= Matching(rows, e);
  }

  /** In terms of families: a logout or a replay leaves its family dead exactly then. */
  lemma SweepEndsFamilyIff(r: Run, id: nat, family: Uuid, at: Time, i: nat, k: nat)
    requires IsRun(r) && Sweeps(r, id, FamilyEnded(family, at), i, k) && family in Families(r.states[k].rows)
    ensures Dead(r.states[k + 1].rows, family) <==>
      forall j | j in LiveIn(r.states[k].rows, family) :: j in r.states[i].rows
  {
    SweepEndsIff(r, id, FamilyEnded(family, at), i, k);
    MonotoneRows(r, k, k + 1);
    FamiliesStay(r.states[k].rows, r.states[k + 1].rows, family);
    DeadIffNoneLive(r.states[k + 1].rows, family);
  }

  // ---------- the password-change cut-off ----------

  /** Record j was inserted by a transaction begun after step k. */
  ghost predicate FromAfter(r: Run, k: nat, j: Uuid)
    requires |r.states| == |r.steps| + 1
  {
    exists b, m | k < b < m < |r.steps| :: Spans(r, b, m) && Inserts(r, m, j)
  }

  /** After step k, every live record of u comes from a transaction begun after it. */
  ghost predicate CutsOff(r: Run, k: nat, u: Uuid)
    requires |r.states| == |r.steps| + 1
  {
    forall n, j | k < n <= |r.steps| && j in LiveOf(r.states[n].rows, u) :: FromAfter(r, k, j)
  }

  /** A login or refresh of u, begun in step b before the sweep commits in step k, that inserts its record in step m after
      the sweep's UPDATE in step i; if it commits before the sweep does, its record is still live then. */
  ghost predicate Straggles(r: Run, u: Uuid, i: nat, k: nat, b: nat, m: nat)
    requires |r.states| == |r.steps| + 1
  {
    && b < k < |r.steps| && i < m && Spans(r, b, m) && r.steps[m].id in r.states[m].work
    && var added := Added(r.states[m].work[r.steps[m].id]);
       added.Some? && added.value.userId == u && (m < k ==> added.value.jti in LiveOf(r.states[k].rows, u))
  }

  /** A record that the UPDATE of a password change finds live is revoked from the commit on. */
  lemma SweptStaysRevoked(r: Run, id: nat, u: Uuid, at: Time, i: nat, k: nat, j: Uuid, n: nat)
    requires IsRun(r) && Sweeps(r, id, UserEnded(u, at), i, k) && k < n <= |r.steps| && j in r.states[i].rows
    ensures j in r.states[n].rows && j !in LiveOf(r.states[n].rows, u)
  {
    SweepWrites(r, id, UserEnded(u, at), i, k);
    MonotoneRows(r, i, k);
    MonotoneRows(r, k, k + 1);
    MonotoneRows(r, k + 1, n);
    assert r.states[i].rows[j].userId == u && !r.states[i].rows[j].IsRevoked() ==> j in LiveOf(r.states[i].rows, u);
  }

  lemma LateOrStraggler(r: Run, id: nat, u: Uuid, at: Time, i: nat, k: nat, n: nat, j: Uuid)
    requires IsRun(r) && Sweeps(r, id, UserEnded(u, at), i, k) && k < n <= |r.steps| && j in LiveOf(r.states[n].rows, u)
    ensures FromAfter(r, k, j) || exists b, m :: Straggles(r, u, i, k, b, m)
  {
    var m := InsertedBy(r, n, j);
    var b := BegunBy(r, r.steps[m].id, m);
    assert Spans(r, b, m);
    InsertsNew(r, m, j);
    MonotoneRows(r, m + 1, n);
    SweepWrites(r, id, UserEnded(u, at), i, k);
    if b < k {
      if m <= i {
        MonotoneRows(r, m + 1, if m < i then i else m + 1);
        SweptStaysRevoked(r, id, u, at, i, k, j, n);
      } else {
        if m < k {
          MonotoneRows(r, m + 1, k);
          MonotoneRows(r, k, n);
        }
        assert Straggles(r, u, i, k, b, m);
      }
    }
  }

  lemma StragglerSurvives(r: Run, id: nat, u: Uuid, at: Time, i: nat, k: nat, b: nat, m: nat)
    requires IsRun(r) && Sweeps(r, id, UserEnded(u, at), i, k) && Straggles(r, u, i, k, b, m)
    ensures !CutsOff(r, k, u)
  {
    var j := Added(r.states[m].work[r.steps[m].id]).value.jti;
    InsertsNew(r, m, j);
    SweepWrites(r, id, UserEnded(u, at), i, k);
    MonotoneRows(r, i, m);
    var n := if m < k then k + 1 else m + 1;
    assert j in LiveOf(r.states[n].rows, u);
    forall c, x | k < c < x < |r.steps| ensures !(Spans(r, c, x) && Inserts(r, x, j)) {
      if Spans(r, c, x) && Inserts(r, x, j) {
        OneInsert(r, m, x, j);
        OneBegin(r, b, c, m);
      }
    }
    assert !FromAfter(r, k, j);
  }

  /** The exact condition for the password-change cut-off: after the change commits, every live record of the user comes
      from a transaction begun after it, if and only if no login or refresh of the user straggles. */
  lemma CutOffIff(r: Run, id: nat, u: Uuid, at: Time, i: nat, k: nat)
    requires IsRun(r) && Sweeps(r, id, UserEnded(u, at), i, k)
    ensures CutsOff(r, k, u) <==> !exists b, m :: Straggles(r, u, i, k, b, m)
  {
    if b, m :| Straggles(r, u, i, k, b, m) {
      StragglerSurvives(r, id, u, at, i, k, b, m);
    } else {
      forall n, j | k < n <= |r.steps| && j in LiveOf(r.states[n].rows, u) ensures FromAfter(r, k, j) {
        LateOrStraggler(r, id, u, at, i, k, n, j);
      }
    }
  }

  /** The family of a live record was then opened by a login begun after the change. */
  lemma {:induction false} CutOffLogin(r: Run, k: nat, u: Uuid, n: nat, j: Uuid) returns (b: nat)
    requires IsRun(r) && CutsOff(r, k, u) && k < n <= |r.steps| && j in LiveOf(r.states[n].rows, u)
    ensures k < b < |r.steps| && r.steps[b].Begin? && r.steps[b].effect.Opened?
    ensures r.steps[b].effect.first.familyId == r.states[n].rows[j].familyId
    decreases n
  {
    var m;
    b, m := Origin(r, k, n, j);
    InsertsNew(r, m, j);
    MonotoneRows(r, m + 1, n);
    if r.steps[b].effect.Rotated? {
      var prior := r.steps[b].effect.prior;
      Reaches(r, b);
      assert Linked(r, b);
      DecisionSound(r.states[b], r.steps[b].effect);
      assert prior in LiveOf(r.states[b].rows, u);
      b := CutOffLogin(r, k, u, b, prior);
    }
  }

  lemma Origin(r: Run, k: nat, n: nat, j: Uuid) returns (b: nat, m: nat)
    requires IsRun(r) && k < n <= |r.steps| && j in r.states[n].rows && FromAfter(r, k, j)
    ensures k < b < m < n && Spans(r, b, m) && Inserts(r, m, j)
    ensures r.states[m].work[r.steps[m].id] == Decided(r.steps[b].effect)
  {
    b, m :| k < b < m < |r.steps| && Spans(r, b, m) && Inserts(r, m, j);
    var before := InsertedBy(r, n, j);
    OneInsert(r, m, before, j);
    assert Linked(r, b);
    StaysOpen(r, r.steps[m].id, b + 1, m);
    InsertsNew(r, m, j);
    var c := BegunBy(r, r.steps[m].id, m);
    OneBegin(r, b, c, m);
  }
}
