/** Concrete schedules of Interleaved: the serial one, which is the atomic effect, and the runs in which overlapping
    transactions break what atomic commands guarantee. */
module Schedules {
  import opened Wrappers
  import opened Uuids
  import opened Rows
  import opened Ledger
  import opened Interleaved

  function Last(r: Run): State
    requires r.states != []
  {
    r.states[|r.states| - 1]
  }

  function Start(s: State): Run {
    Run([s], [])
  }

  /** A path with one more step. */
  ghost function Then(r: Run, step: Step): (r': Run)
    requires IsPath(r) && Enabled(Last(r), step)
    ensures IsPath(r') && r'.states != [] && Last(r') == After(Last(r), step)
    ensures r'.steps == r.steps + [step] && r'.states[0] == r.states[0]
  {
    var r' := Run(r.states + [After(Last(r), step)], r.steps + [step]);
    ThenLinked(r, step, r');
    r'
  }

  lemma ThenLinked(r: Run, step: Step, r': Run)
    requires IsPath(r) && Enabled(Last(r), step)
    requires r' == Run(r.states + [After(Last(r), step)], r.steps + [step])
    ensures IsPath(r')
  {
    hide Enabled, After;
    forall i | 0 <= i < |r'.steps| ensures Linked(r', i) {
      assert i < |r.steps| ==> Linked(r, i);
    }
  }

  // ---------- without interleaving ----------

  /** The steps of one transaction on its own. */
  function Alone(id: nat, e: Effect): seq<Step> {
    if e.FamilyEnded? || e.UserEnded? then [Begin(id, e), Execute(id), Commit(id)] else [Begin(id, e), Commit(id)]
  }

  /** A transaction that runs without interruption is the atomic effect. */
  lemma AloneIsAtomic(s: State, log: seq<Uuid>, id: nat, e: Effect) returns (r: Run)
    requires Inv(s) && Enabled(s, Begin(id, e))
    ensures IsPath(r) && r.states[0] == s && r.steps == Alone(id, e)
    ensures Last(r) == State(Apply(Ledger(s.rows, log), e).rows, s.work, s.issued + Handed(Decided(e)))
  {
    hide Inv, IsPath, Linked, Decides, Apart, Written, Apply, Parse, Text, Then;
    DecisionSound(s, e);
    OnePath(s);
    r := Then(Start(s), Begin(id, e));
    if e.FamilyEnded? || e.UserEnded? {
      SweptAtOnce(s.rows, log, e);
      r := Then(r, Execute(id));
      r := Then(r, Commit(id));
    } else {
      WrittenAtOnce(s.rows, log, e);
      r := Then(r, Commit(id));
    }
    assert Last(r).work == s.work;
  }

  lemma OnePath(s: State)
    ensures IsPath(Start(s)) && Last(Start(s)) == s
  {
  }

  /** An UPDATE that is committed at once revokes every matching row. */
  lemma SweptAtOnce(rows: TokenTable, log: seq<Uuid>, e: Effect)
    requires e.FamilyEnded? || e.UserEnded?
    ensures Written(rows, Execution(rows, Decided(e))) == Apply(Ledger(rows, log), e).rows
    ensures Handed(Execution(rows, Decided(e))) == Handed(Decided(e))
  {
  }

  lemma WrittenAtOnce(rows: TokenTable, log: seq<Uuid>, e: Effect)
    requires Permitted(Ledger(rows, []), e) && !e.FamilyEnded? && !e.UserEnded?
    ensures Written(rows, Decided(e)) == Apply(Ledger(rows, log), e).rows
  {
  }

  // ---------- a login, as every witness begins ----------

  function TicketOf(row: TokenRow): Ticket {
    Ticket(row.jti, Text(row.userId))
  }

  lemma LoggedIn(first: TokenRow) returns (r: Run)
    requires !first.IsRevoked()
    ensures IsRun(r) && r.steps == [Begin(0, Opened(first)), Commit(0)]
    ensures Last(r) == State(map[first.jti := first], map[], {TicketOf(first)})
  {
    hide IsPath, Parse, Text;
    OnePath(EMPTY);
    r := Then(Then(Start(EMPTY), Begin(0, Opened(first))), Commit(0));
  }

  /** The token of a login can be presented by its owner. */
  lemma CanPresent(s: State, first: TokenRow)
    requires TicketOf(first) in s.issued
    ensures Presented(s, first.jti, first.userId)
  {
    hide Parse, Text;
    TextRoundTrip(first.userId);
  }

  // ---------- two refreshes of one token ----------

  /** Two refreshes that have both read the same live token; neither has committed. */
  function BothRead(first: TokenRow, left: TokenRow, right: TokenRow, at: Time, later: Time): State {
    State(map[first.jti := first],
          map[1 := Decided(Rotated(first.jti, at, left)), 2 := Decided(Rotated(first.jti, later, right))],
          {TicketOf(first)})
  }

  lemma BothReadHappens(first: TokenRow, left: TokenRow, right: TokenRow, at: Time, later: Time) returns (r: Run)
    requires !first.IsRevoked() && !left.IsRevoked() && !right.IsRevoked()
    requires first.jti != left.jti && left.jti != right.jti && right.jti != first.jti
    requires first.familyId == left.familyId == right.familyId && first.userId == left.userId == right.userId
    ensures IsRun(r) && Last(r) == BothRead(first, left, right, at, later)
  {
    hide Linked, Parse, Text, Presented, Then;
    r := LoggedIn(first);
    CanPresent(Last(r), first);
    r := Then(r, Begin(1, Rotated(first.jti, at, left)));
    CanPresent(Last(r), first);
    r := Then(r, Begin(2, Rotated(first.jti, later, right)));
  }

  /** Both commit: the token is redeemed twice, and after one login the family, and its owner, have two live records. */
  lemma DoubleRedeem(first: TokenRow, left: TokenRow, right: TokenRow, at: Time, later: Time)
    requires !first.IsRevoked() && !left.IsRevoked() && !right.IsRevoked()
    requires first.jti != left.jti && left.jti != right.jti && right.jti != first.jti
    requires first.familyId == left.familyId == right.familyId && first.userId == left.userId == right.userId
    ensures var s0 := BothRead(first, left, right, at, later);
      && Enabled(s0, Commit(1)) && !Stale(s0, Commit(1))
      && var s := After(s0, Commit(1));
         && Enabled(s, Commit(2)) && Stale(s, Commit(2))
         && LiveIn(After(s, Commit(2)).rows, first.familyId) == {left.jti, right.jti}
         && LiveOf(After(s, Commit(2)).rows, first.userId) == {left.jti, right.jti}
  {
    hide Text;
    var s := After(BothRead(first, left, right, at, later), Commit(1));
    assert left.jti in s.rows && s.rows[first.jti].IsRevoked();
  }

  // ---------- a refresh beside a logout or a password change ----------

  /** A refresh that has read its token, and a bulk revocation that has executed its UPDATE; neither has committed. */
  function Racing(first: TokenRow, next: TokenRow, read: Time, when: Time): State {
    State(map[first.jti := first], map[1 := Decided(Rotated(first.jti, read, next)), 2 := Swept({first.jti}, when)],
          {TicketOf(first)})
  }

  /** The bulk revocation can be the family's logout or replay, or the owner's password change. */
  lemma RaceHappens(first: TokenRow, next: TokenRow, read: Time, when: Time, e: Effect)
    returns (r: Run)
    requires !first.IsRevoked() && !next.IsRevoked() && first.jti != next.jti
    requires first.familyId == next.familyId && first.userId == next.userId
    requires e == FamilyEnded(first.familyId, when) || e == UserEnded(first.userId, when)
    ensures IsRun(r) && r.steps == [Begin(0, Opened(first)), Commit(0), Begin(1, Rotated(first.jti, read, next)),
                                    Begin(2, e), Execute(2)]
    ensures Last(r) == Racing(first, next, read, when)
  {
    hide Linked, Parse, Text, Presented, Then;
    r := LoggedIn(first);
    CanPresent(Last(r), first);
    r := Then(r, Begin(1, Rotated(first.jti, read, next)));
    r := Then(r, Begin(2, e));
    assert Matching(Last(r).rows, e) == {first.jti};
    r := Then(r, Execute(2));
  }

  /** The revocation commits first: the family is dead and the user has no live record; the refresh then brings both back
      to life and moves the time of the revocation. */
  lemma Resurrection(first: TokenRow, next: TokenRow, read: Time, when: Time)
    requires !first.IsRevoked() && !next.IsRevoked() && first.jti != next.jti
    requires first.familyId == next.familyId && first.userId == next.userId
    ensures var s0 := Racing(first, next, read, when);
      && Enabled(s0, Commit(2))
      && var s := After(s0, Commit(2));
         && Dead(s.rows, first.familyId) && LiveOf(s.rows, first.userId) == {}
         && first.jti in s.rows && s.rows[first.jti].revokedAt == Some(when)
         && Enabled(s, Commit(1))
         && var s' := After(s, Commit(1));
            && LiveIn(s'.rows, first.familyId) == LiveOf(s'.rows, first.userId) == {next.jti}
            && s'.rows[first.jti].revokedAt == Some(read)
  {
    hide Text;
    InFamilies(After(Racing(first, next, read, when), Commit(2)).rows, first.jti);
  }

  /** The refresh commits first: the revocation misses the successor and completes with the family alive, although no
      commit was stale. */
  lemma MissedSuccessor(first: TokenRow, next: TokenRow, read: Time, when: Time)
    requires !first.IsRevoked() && !next.IsRevoked() && first.jti != next.jti
    requires first.familyId == next.familyId && first.userId == next.userId
    ensures var s0 := Racing(first, next, read, when);
      && Enabled(s0, Commit(1)) && !Stale(s0, Commit(1))
      && var s := After(s0, Commit(1));
         && Enabled(s, Commit(2))
         && LiveIn(After(s, Commit(2)).rows, first.familyId) == {next.jti}
         && LiveOf(After(s, Commit(2)).rows, first.userId) == {next.jti}
  {
    hide Text;
  }

  /** A login that has checked the old password before a password change commits after it: no commit is stale and the
      change leaves the user without a live record, but the session opened with the old password lives on. */
  lemma LateLogin(row: TokenRow, when: Time) returns (r: Run)
    requires !row.IsRevoked()
    ensures IsRun(r) && r.steps == [Begin(0, Opened(row)), Begin(1, UserEnded(row.userId, when)), Execute(1), Commit(1),
                                    Commit(0)]
    ensures forall n | 0 <= n < |r.steps| :: !Stale(r.states[n], r.steps[n])
    ensures LiveOf(r.states[4].rows, row.userId) == {} && LiveOf(r.states[5].rows, row.userId) == {row.jti}
  {
    hide Parse, Text, Then;
    OnePath(EMPTY);
    var r1 := Then(Then(Start(EMPTY), Begin(0, Opened(row))), Begin(1, UserEnded(row.userId, when)));
    var r2 := Then(Then(r1, Execute(1)), Commit(1));
    r := Then(r2, Commit(0));
    LateLoginStates(r, row, when);
  }

  lemma LateLoginStates(r: Run, row: TokenRow, when: Time)
    requires IsRun(r) && !row.IsRevoked()
    requires r.steps == [Begin(0, Opened(row)), Begin(1, UserEnded(row.userId, when)), Execute(1), Commit(1), Commit(0)]
    ensures forall n | 0 <= n < |r.steps| :: !Stale(r.states[n], r.steps[n])
    ensures LiveOf(r.states[4].rows, row.userId) == {} && LiveOf(r.states[5].rows, row.userId) == {row.jti}
  {
    hide Parse, Text, Decides, Apart;
    assert Linked(r, 0) && Linked(r, 1) && Linked(r, 2) && Linked(r, 3) && Linked(r, 4);
    assert r.states[4].rows == map[];
  }
}
