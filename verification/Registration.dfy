/** Concurrent registrations: the pre-check, the insert, the commit and the dispatch of the event are separate steps of
    many clients. The pre-check cannot stop two clients with one address; the unique index does. */
module Registration {
  import opened Wrappers
  import opened Uuids
  import opened Rows
  import opened Emails
  import opened Ledger
  import opened Commands
  import opened Entities
  import SqlStore

  datatype Phase =
    | Arrived
    | Checked
    | Inserted(row: UserRow)
    | Durable(row: UserRow)
    | Done(outcome: Outcome)
    | Crashed(saved: Option<UserView>)

  /** A client registering the address that `raw` normalises to. */
  datatype Client = Client(raw: string, phase: Phase)

  datatype State = State(users: UserTable, clients: map<nat, Client>, dispatched: seq<UserRegistered>)

  datatype Step =
    | Arrive(c: nat, raw: string)
    | Check(c: nat)
    | Insert(c: nat, id: Uuid, hashed: HashedPassword, at: Time)
    | Commit(c: nat)
    | Dispatch(c: nat)
    | Crash(c: nat)

  predicate Taken(users: UserTable, address: string) {
    exists u | u in users :: users[u].email == address
  }

  function Address(client: Client): Option<string> {
    Email(client.raw)
  }

  /** The user that a client has committed. */
  function Saved(p: Phase): Option<UserView> {
    match p
    case Durable(row) => Some(View(row))
    case Done(Registered(view)) => Some(view)
    case Crashed(saved) => saved
    case _ => None
  }

  /** The id that a client has drawn. */
  function IdOf(p: Phase): Option<Uuid> {
    if p.Inserted? then Some(p.row.id) else if Saved(p).Some? then Some(Saved(p).value.id) else None
  }

  function EventOf(v: UserView): UserRegistered {
    UserRegistered(v.id, v.email, v.createdAt)
  }

  ghost predicate Enabled(s: State, step: Step) {
    match step
    case Arrive(c, raw) => c !in s.clients
    case Check(c) => c in s.clients && s.clients[c].phase.Arrived?
    case Insert(c, id, hashed, at) =>
      && c in s.clients && s.clients[c].phase.Checked? && Address(s.clients[c]).Some?
      && id !in s.users && forall k | k in s.clients :: IdOf(s.clients[k].phase) != Some(id)
    case Commit(c) => c in s.clients && s.clients[c].phase.Inserted?
    case Dispatch(c) => c in s.clients && s.clients[c].phase.Durable?
    case Crash(c) => c in s.clients && !s.clients[c].phase.Done?
  }

  /** The phase in which a step leaves its client. */
  ghost function NextPhase(s: State, step: Step): Phase
    requires Enabled(s, step)
  {
    match step
    case Arrive(c, raw) => if Email(raw).None? then Done(Failed(ValidationFailed)) else Arrived
    case Check(c) =>
      var address := Address(s.clients[c]);
      if address.Some? && Taken(s.users, address.value) then Done(Failed(EmailAlreadyExists)) else Checked
    case Insert(c, id, hashed, at) => Inserted(UserRow(id, Address(s.clients[c]).value, hashed, true, at))
    case Commit(c) =>
      var row := s.clients[c].phase.row;
      if Refused(s.users, row) then Done(Failed(EmailAlreadyExists)) else Durable(row)
    case Dispatch(c) => Done(Registered(View(s.clients[c].phase.row)))
    case Crash(c) => Crashed(Saved(s.clients[c].phase))
  }

  /** The unique index does not admit the row. */
  ghost predicate Refused(users: UserTable, row: UserRow) {
    SqlStore.EmailClash(users[row.id := row])
  }

  ghost function NextUsers(s: State, step: Step): UserTable
    requires Enabled(s, step)
  {
    if step.Commit? && !Refused(s.users, s.clients[step.c].phase.row)
    then s.users[s.clients[step.c].phase.row.id := s.clients[step.c].phase.row] else s.users
  }

  ghost function After(s: State, step: Step): State
    requires Enabled(s, step)
  {
    State(NextUsers(s, step),
          s.clients[step.c := Client(if step.Arrive? then step.raw else s.clients[step.c].raw, NextPhase(s, step))],
          s.dispatched + if step.Dispatch? then [EventOf(View(s.clients[step.c].phase.row))] else [])
  }

  // ---------- the invariant ----------

  /** What the phase of a client says about the committed table; `before` is the table at the start of the run. */
  ghost predicate Consistent(before: UserTable, users: UserTable, client: Client) {
    var address := Address(client);
    match client.phase
    case Inserted(row) => address == Some(row.email) && row.id !in users
    case Done(Failed(e)) =>
      if address.None? then e == ValidationFailed else e == EmailAlreadyExists && Taken(users, address.value)
    case Done(Registered(view)) => Holds(before, users, address, view)
    case Done(_) => false
    case Durable(row) => Holds(before, users, address, View(row))
    case Crashed(saved) => saved.Some? ==> Holds(before, users, address, saved.value)
    case _ => address.Some?
  }

  /** The table has gained this user. */
  ghost predicate Holds(before: UserTable, users: UserTable, address: Option<string>, view: UserView) {
    view.id in users && View(users[view.id]) == view && view.id !in before && address == Some(view.email)
  }

  ghost predicate Grown(before: UserTable, users: UserTable) {
    forall u | u in before :: u in users && users[u] == before[u]
  }

  /** Every new user was saved by a client. */
  ghost predicate Accounted(before: UserTable, s: State) {
    forall u | u in s.users && u !in before ::
      exists c :: c in s.clients && Saved(s.clients[c].phase) == Some(View(s.users[u]))
  }

  ghost predicate DistinctIds(s: State) {
    forall c, k | c in s.clients && k in s.clients && c != k && IdOf(s.clients[c].phase).Some? ::
      IdOf(s.clients[c].phase) != IdOf(s.clients[k].phase)
  }

  /** Client c has returned from the registration that this event announces. */
  predicate Announced(s: State, c: nat, event: UserRegistered) {
    && c in s.clients && s.clients[c].phase.Done? && s.clients[c].phase.outcome.Registered?
    && EventOf(s.clients[c].phase.outcome.view) == event
  }

  /** Every dispatched event announces a registration that returned. */
  ghost predicate AllAnnounced(s: State) {
    forall e | e in s.dispatched :: Returned(s, e)
  }

  ghost predicate Returned(s: State, e: UserRegistered) {
    exists c :: Announced(s, c, e)
  }

  predicate NoneTwice(events: seq<UserRegistered>) {
    forall i, k | 0 <= i < k < |events| :: events[i].userId != events[k].userId
  }

  /** Every registration that returned has had its event dispatched. */
  predicate NoneMissing(s: State) {
    forall c | c in s.clients && s.clients[c].phase.Done? && s.clients[c].phase.outcome.Registered? ::
      EventOf(s.clients[c].phase.outcome.view) in s.dispatched
  }

  ghost predicate TableOk(users: UserTable) {
    UsersValid(users) && NormalEmails(users)
  }

  ghost predicate Inv(before: UserTable, s: State) {
    && TableOk(s.users) && Grown(before, s.users)
    && (forall c | c in s.clients :: Consistent(before, s.users, s.clients[c]))
    && Accounted(before, s) && DistinctIds(s)
    && AllAnnounced(s) && NoneTwice(s.dispatched) && NoneMissing(s)
  }

  /** The unique index refuses the insert exactly if the address is taken. */
  lemma ClashIffTaken(users: UserTable, row: UserRow)
    requires UniqueEmails(users) && row.id !in users
    ensures Refused(users, row) <==> Taken(users, row.email)
  {
    var users' := users[row.id := row];
    if Taken(users, row.email) {
      var u :| u in users && users[u].email == row.email;
      assert users'[u].email == users'[row.id].email && u != row.id;
    }
  }

  lemma CommitTable(before: UserTable, s: State, c: nat)
    requires Inv(before, s) && Enabled(s, Commit(c)) && !Taken(s.users, s.clients[c].phase.row.email)
    ensures var row := s.clients[c].phase.row;
      TableOk(s.users[row.id := row]) && Grown(before, s.users[row.id := row]) && row.id !in before
  {
    hide Email;
    var row := s.clients[c].phase.row;
    assert Consistent(before, s.users, s.clients[c]);
    AddressIsNormal(s.clients[c]);
    assert NormalEmails(s.users[row.id := row]);
  }

  lemma AddressIsNormal(client: Client)
    requires Address(client).Some?
    ensures Email(Address(client).value) == Address(client)
  {
    NormalFormIsFixed(client.raw);
  }

  lemma OthersConsistent(before: UserTable, users: UserTable, users': UserTable, client: Client)
    requires Consistent(before, users, client) && Grown(users, users')
    requires client.phase.Inserted? ==> client.phase.row.id !in users'
    ensures Consistent(before, users', client)
  {
    hide Email;
    if Address(client).Some? && Taken(users, Address(client).value) {
      var u :| u in users && users[u].email == Address(client).value;
      assert users'[u].email == Address(client).value;
    }
  }

  lemma TableStep(before: UserTable, s: State, step: Step)
    requires Inv(before, s) && Enabled(s, step)
    ensures var s' := After(s, step);
      && TableOk(s'.users) && Grown(before, s'.users) && Grown(s.users, s'.users)
      && forall k | k in s.clients && k != step.c && s.clients[k].phase.Inserted? ::
           s.clients[k].phase.row.id !in s'.users
  {
    hide Email, NormalEmails, UsersValid;
    if step.Commit? {
      var row := s.clients[step.c].phase.row;
      assert Consistent(before, s.users, s.clients[step.c]);
      CommitClash(s, step.c, before);
      if !Taken(s.users, row.email) {
        CommitTable(before, s, step.c);
      }
    }
    forall k | k in s.clients && k != step.c && s.clients[k].phase.Inserted?
      ensures s.clients[k].phase.row.id !in After(s, step).users
    {
      assert Consistent(before, s.users, s.clients[k]);
      assert step.Commit? ==> IdOf(s.clients[k].phase) != IdOf(s.clients[step.c].phase);
    }
  }

  lemma CommitClash(s: State, c: nat, before: UserTable)
    requires Inv(before, s) && Enabled(s, Commit(c))
    ensures var row := s.clients[c].phase.row;
      && row.id !in s.users
      && (Refused(s.users, row) <==> Taken(s.users, row.email))
  {
    assert Consistent(before, s.users, s.clients[c]);
    ClashIffTaken(s.users, s.clients[c].phase.row);
  }

  lemma ActorConsistent(before: UserTable, s: State, step: Step)
    requires Inv(before, s) && Enabled(s, step)
    ensures Consistent(before, NextUsers(s, step), After(s, step).clients[step.c])
  {
    hide Email, UsersValid, NormalEmails, Refused, DistinctIds, Accounted, AllAnnounced, NoneTwice, NoneMissing, Grown;
    if step.Commit? {
      CommitterConsistent(before, s, step.c);
    } else {
      assert step.Arrive? || Consistent(before, s.users, s.clients[step.c]);
    }
  }

  lemma CommitterConsistent(before: UserTable, s: State, c: nat)
    requires Inv(before, s) && Enabled(s, Commit(c))
    ensures Consistent(before, NextUsers(s, Commit(c)), s.clients[c].(phase := NextPhase(s, Commit(c))))
  {
    hide Email, UsersValid, NormalEmails, Refused, DistinctIds, Accounted, AllAnnounced, NoneTwice, NoneMissing, Grown;
    CommitClash(s, c, before);
    assert Consistent(before, s.users, s.clients[c]);
    if !Taken(s.users, s.clients[c].phase.row.email) {
      CommitTable(before, s, c);
    }
  }

  lemma ConsistentStep(before: UserTable, s: State, step: Step)
    requires Inv(before, s) && Enabled(s, step)
    ensures forall k | k in After(s, step).clients :: Consistent(before, After(s, step).users, After(s, step).clients[k])
  {
    ActorConsistent(before, s, step);
    TableStep(before, s, step);
    hide Email, Consistent, TableOk, Taken, NextPhase, NextUsers;
    forall k | k in After(s, step).clients && k != step.c
      ensures Consistent(before, After(s, step).users, After(s, step).clients[k])
    {
      assert k in s.clients && After(s, step).clients[k] == s.clients[k];
      OthersConsistent(before, s.users, After(s, step).users, s.clients[k]);
    }
  }

  /** A client that has saved a user goes on having saved it. */
  lemma SavedStays(s: State, step: Step, c: nat)
    requires Enabled(s, step) && c in s.clients && Saved(s.clients[c].phase).Some?
    ensures c in After(s, step).clients && Saved(After(s, step).clients[c].phase) == Saved(s.clients[c].phase)
  {
    hide Email;
  }

  lemma AccountedStep(before: UserTable, s: State, step: Step)
    requires Inv(before, s) && Enabled(s, step)
    ensures Accounted(before, After(s, step))
  {
    hide Email, Taken, TableOk, AllAnnounced, NoneMissing, DistinctIds;
    var s' := After(s, step);
    forall u | u in s'.users && u !in before
      ensures exists c :: c in s'.clients && Saved(s'.clients[c].phase) == Some(View(s'.users[u]))
    {
      if u in s.users && s'.users[u] == s.users[u] {
        var c :| c in s.clients && Saved(s.clients[c].phase) == Some(View(s.users[u]));
        SavedStays(s, step, c);
      } else {
        assert Saved(s'.clients[step.c].phase) == Some(View(s'.users[u]));
      }
    }
  }

  lemma DistinctStep(before: UserTable, s: State, step: Step)
    requires Inv(before, s) && Enabled(s, step)
    ensures DistinctIds(After(s, step))
  {
    hide Email, Taken, TableOk, Accounted, AllAnnounced, NoneMissing;
  }

  lemma AnnouncedStays(s: State, step: Step, c: nat, event: UserRegistered)
    requires Enabled(s, step) && Announced(s, c, event)
    ensures Announced(After(s, step), c, event)
  {
    hide Email;
  }

  lemma Announcer(s: State, i: nat) returns (c: nat)
    requires AllAnnounced(s) && i < |s.dispatched|
    ensures Announced(s, c, s.dispatched[i])
  {
    var e := s.dispatched[i];
    assert e in s.dispatched;
    assert Returned(s, e);
    c :| Announced(s, c, e);
  }

  /** The event that a client is about to dispatch has not been dispatched. */
  lemma NotDispatched(before: UserTable, s: State, c: nat, i: nat)
    requires Inv(before, s) && Enabled(s, Dispatch(c)) && i < |s.dispatched|
    ensures s.dispatched[i].userId != s.clients[c].phase.row.id
  {
    hide Email, Consistent, Accounted, TableOk, Grown;
    var k := Announcer(s, i);
    assert k != c && IdOf(s.clients[k].phase) == Some(s.dispatched[i].userId);
    assert IdOf(s.clients[c].phase) == Some(s.clients[c].phase.row.id);
  }

  lemma AnnouncedStep(s: State, step: Step)
    requires AllAnnounced(s) && Enabled(s, step)
    ensures AllAnnounced(After(s, step))
  {
    hide Email;
    var s' := After(s, step);
    forall e | e in s'.dispatched ensures Returned(s', e) {
      if e in s.dispatched {
        var c :| Announced(s, c, e);
        AnnouncedStays(s, step, c, e);
      } else {
        assert Announced(s', step.c, e);
      }
    }
  }

  lemma NoneTwiceStep(before: UserTable, s: State, step: Step)
    requires Inv(before, s) && Enabled(s, step)
    ensures NoneTwice(After(s, step).dispatched)
  {
    assert NoneTwice(s.dispatched);
    hide Email, Inv, NoneTwice, NextPhase, NextUsers;
    if step.Dispatch? {
      var e := EventOf(View(s.clients[step.c].phase.row));
      forall i | 0 <= i < |s.dispatched| ensures s.dispatched[i].userId != e.userId {
        NotDispatched(before, s, step.c, i);
      }
      AppendNoneTwice(s.dispatched, e);
    } else {
      assert After(s, step).dispatched == s.dispatched;
    }
  }

  lemma AppendNoneTwice(events: seq<UserRegistered>, e: UserRegistered)
    requires NoneTwice(events) && forall i | 0 <= i < |events| :: events[i].userId != e.userId
    ensures NoneTwice(events + [e])
  {
  }

  lemma NoneMissingStep(s: State, step: Step)
    requires Enabled(s, step) && NoneMissing(s)
    ensures NoneMissing(After(s, step))
  {
    hide Email;
  }

  lemma StepKeepsInv(before: UserTable, s: State, step: Step)
    requires Inv(before, s) && Enabled(s, step)
    ensures Inv(before, After(s, step))
  {
    TableStep(before, s, step);
    ConsistentStep(before, s, step);
    AccountedStep(before, s, step);
    DistinctStep(before, s, step);
    AnnouncedStep(s, step);
    NoneTwiceStep(before, s, step);
    NoneMissingStep(s, step);
    hide Email, Enabled, After, TableOk, Grown, Consistent, Accounted, DistinctIds, AllAnnounced, NoneTwice, NoneMissing;
  }

  // ---------- runs ----------

  datatype Run = Run(states: seq<State>, steps: seq<Step>)

  ghost predicate IsPath(r: Run) {
    && |r.states| == |r.steps| + 1
    && forall i | 0 <= i < |r.steps| :: Linked(r, i)
  }

  /** A committed table and no client yet. */
  function Idle(users: UserTable): State {
    State(users, map[], [])
  }

  ghost predicate IsRun(r: Run) {
    IsPath(r) && r.states[0] == Idle(r.states[0].users) && TableOk(r.states[0].users)
  }

  ghost predicate Linked(r: Run, i: nat)
    requires i < |r.steps| < |r.states|
  {
    Enabled(r.states[i], r.steps[i]) && r.states[i + 1] == After(r.states[i], r.steps[i])
  }

  lemma {:induction false} Reaches(r: Run, n: nat)
    requires IsRun(r) && n <= |r.steps|
    ensures Inv(r.states[0].users, r.states[n])
  {
    if n == 0 {
      hide Email;
    } else {
      Reaches(r, n - 1);
      assert Linked(r, n - 1);
      StepKeepsInv(r.states[0].users, r.states[n - 1], r.steps[n - 1]);
      hide Inv, After, Enabled;
    }
  }

  /** In every state of every run the committed table holds no two users with one normalised address. */
  lemma EmailsUnique(r: Run, n: nat, u: Uuid, v: Uuid)
    requires IsRun(r) && n <= |r.steps| && u in r.states[n].users && v in r.states[n].users
    requires Email(r.states[n].users[u].email) == Email(r.states[n].users[v].email)
    ensures u == v
  {
    Reaches(r, n);
    hide Email;
    assert NormalEmails(r.states[n].users);
  }

  lemma SavedIsStored(before: UserTable, s: State, c: nat)
    requires Inv(before, s) && c in s.clients && Saved(s.clients[c].phase).Some?
    ensures Holds(before, s.users, Address(s.clients[c]), Saved(s.clients[c].phase).value)
  {
    hide Email, Holds, Taken;
    assert Consistent(before, s.users, s.clients[c]);
  }

  lemma SavedWasFree(before: UserTable, s: State, c: nat)
    requires Inv(before, s) && c in s.clients && Saved(s.clients[c].phase).Some?
    ensures Address(s.clients[c]).Some? && !Taken(before, Address(s.clients[c]).value)
  {
    var view := Saved(s.clients[c].phase).value;
    SavedIsStored(before, s, c);
    hide Email, Consistent, NormalEmails, Accounted, AllAnnounced, NoneMissing;
    forall u | u in before ensures before[u].email != view.email {
      assert s.users[u] == before[u] && u != view.id;
    }
  }

  lemma OneSaver(before: UserTable, s: State, c: nat, k: nat)
    requires Inv(before, s) && c in s.clients && k in s.clients
    requires Saved(s.clients[c].phase).Some? && Address(s.clients[c]) == Address(s.clients[k])
    ensures Saved(s.clients[k].phase).Some? ==> k == c
  {
    var view := Saved(s.clients[c].phase).value;
    SavedIsStored(before, s, c);
    hide Email, Consistent, NormalEmails, Accounted, AllAnnounced, NoneMissing;
    assert s.users[view.id].email == view.email;
    if Saved(s.clients[k].phase).Some? {
      SavedIsStored(before, s, k);
      assert s.users[Saved(s.clients[k].phase).value.id].email == view.email;
      assert IdOf(s.clients[c].phase) == IdOf(s.clients[k].phase);
    }
  }

  /** At most one of the clients that register one address saves a user, and none does if the address was taken when
      the run began. */
  lemma AtMostOneSaved(r: Run, n: nat, c: nat, k: nat)
    requires IsRun(r) && n <= |r.steps|
    requires var clients := r.states[n].clients;
      && c in clients && k in clients && Saved(clients[c].phase).Some?
      && Address(clients[c]).Some? && Address(clients[c]) == Address(clients[k])
    ensures Saved(r.states[n].clients[k].phase).Some? ==> k == c
    ensures !Taken(r.states[0].users, Address(r.states[n].clients[c]).value)
  {
    Reaches(r, n);
    hide Email, Inv, IsRun, Taken;
    SavedWasFree(r.states[0].users, r.states[n], c);
    OneSaver(r.states[0].users, r.states[n], c, k);
  }

  /** All of the clients that register this address are done. */
  ghost predicate AllDone(s: State, address: string) {
    forall c | c in s.clients && Address(s.clients[c]) == Some(address) :: s.clients[c].phase.Done?
  }

  lemma OneRegisters(before: UserTable, s: State, address: string, first: nat) returns (winner: nat)
    requires Inv(before, s) && AllDone(s, address) && !Taken(before, address)
    requires first in s.clients && Address(s.clients[first]) == Some(address)
    ensures winner in s.clients && Address(s.clients[winner]) == Some(address)
    ensures s.clients[winner].phase.Done? && s.clients[winner].phase.outcome.Registered?
    ensures forall c | c in s.clients && Address(s.clients[c]) == Some(address) && c != winner ::
      s.clients[c].phase == Done(Failed(EmailAlreadyExists))
  {
    hide Email, Inv, Taken, Consistent, Saved;
    DoneOutcome(before, s, first, address);
    if s.clients[first].phase.outcome.Registered? {
      winner := first;
    } else {
      winner := SaverOf(before, s, address);
      DoneOutcome(before, s, winner, address);
    }
    forall c | c in s.clients && Address(s.clients[c]) == Some(address) && c != winner
      ensures s.clients[c].phase == Done(Failed(EmailAlreadyExists))
    {
      DoneOutcome(before, s, c, address);
      OneSaver(before, s, winner, c);
    }
  }

  /** If the address was free and every attempt ran to its end, exactly one of them registered the user, and every
      other one ended with EmailAlreadyExists. */
  lemma ExactlyOneRegisters(r: Run, n: nat, address: string, first: nat) returns (winner: nat)
    requires IsRun(r) && n <= |r.steps| && AllDone(r.states[n], address) && !Taken(r.states[0].users, address)
    requires first in r.states[n].clients && Address(r.states[n].clients[first]) == Some(address)
    ensures var clients := r.states[n].clients;
      && winner in clients && Address(clients[winner]) == Some(address)
      && clients[winner].phase.Done? && clients[winner].phase.outcome.Registered?
      && forall c | c in clients && Address(clients[c]) == Some(address) && c != winner ::
           clients[c].phase == Done(Failed(EmailAlreadyExists))
  {
    Reaches(r, n);
    hide Email, Inv, IsRun, Taken;
    winner := OneRegisters(r.states[0].users, r.states[n], address, first);
  }

  /** An attempt that ran to its end has registered its user, or has found the address taken. */
  lemma DoneOutcome(before: UserTable, s: State, c: nat, address: string)
    requires Inv(before, s) && c in s.clients && s.clients[c].phase.Done? && Address(s.clients[c]) == Some(address)
    ensures Saved(s.clients[c].phase).Some? <==> s.clients[c].phase.outcome.Registered?
    ensures !s.clients[c].phase.outcome.Registered? ==>
      s.clients[c].phase == Done(Failed(EmailAlreadyExists)) && Taken(s.users, address)
  {
    hide Email, Taken, Holds;
    assert Consistent(before, s.users, s.clients[c]);
  }

  /** A taken address that was free at the start was saved by some client. */
  lemma SaverOf(before: UserTable, s: State, address: string) returns (c: nat)
    requires Inv(before, s) && Taken(s.users, address) && !Taken(before, address)
    ensures c in s.clients && Address(s.clients[c]) == Some(address) && Saved(s.clients[c].phase).Some?
  {
    hide Email;
    var u :| u in s.users && s.users[u].email == address;
    c :| c in s.clients && Saved(s.clients[c].phase) == Some(View(s.users[u]));
    assert Consistent(before, s.users, s.clients[c]);
  }

  /** If the address was taken when the run began, every attempt that ran to its end failed with EmailAlreadyExists. */
  lemma TakenFromTheStart(r: Run, n: nat, c: nat)
    requires IsRun(r) && n <= |r.steps| && c in r.states[n].clients && r.states[n].clients[c].phase.Done?
    requires Address(r.states[n].clients[c]).Some?
    requires Taken(r.states[0].users, Address(r.states[n].clients[c]).value)
    ensures r.states[n].clients[c].phase == Done(Failed(EmailAlreadyExists))
  {
    Reaches(r, n);
    hide Email, Inv, IsRun, Taken;
    DoneOutcome(r.states[0].users, r.states[n], c, Address(r.states[n].clients[c]).value);
    if Saved(r.states[n].clients[c].phase).Some? {
      SavedWasFree(r.states[0].users, r.states[n], c);
    }
  }

  /** Every dispatched event is about a user of the committed table whose registration returned, no user has two, and
      every registration that returned has one. */
  lemma EventsAreDurable(r: Run, n: nat)
    requires IsRun(r) && n <= |r.steps|
    ensures var s := r.states[n];
      && (forall i | 0 <= i < |s.dispatched| ::
            && s.dispatched[i].userId in s.users
            && EventOf(View(s.users[s.dispatched[i].userId])) == s.dispatched[i])
      && (forall i, k | 0 <= i < k < |s.dispatched| :: s.dispatched[i].userId != s.dispatched[k].userId)
      && (forall c | c in s.clients && s.clients[c].phase.Done? && s.clients[c].phase.outcome.Registered? ::
            EventOf(s.clients[c].phase.outcome.view) in s.dispatched)
  {
    Reaches(r, n);
    hide Email;
    var before, s := r.states[0].users, r.states[n];
    forall i | 0 <= i < |s.dispatched|
      ensures s.dispatched[i].userId in s.users && EventOf(View(s.users[s.dispatched[i].userId])) == s.dispatched[i]
    {
      var c := Announcer(s, i);
      SavedIsStored(before, s, c);
    }
  }

  // ---------- paths, one step after the other ----------

  function Last(r: Run): State
    requires r.states != []
  {
    r.states[|r.states| - 1]
  }

  function Start(s: State): Run {
    Run([s], [])
  }

  /** A path with one more step. */
  ghost function Then(r: Run, step: Step): (r': Run)
    requires IsPath(r) && Enabled(Last(r), step)
    ensures IsPath(r') && r'.states != [] && Last(r') == After(Last(r), step)
    ensures r'.steps == r.steps + [step] && r'.states[0] == r.states[0]
  {
    var r' := Run(r.states + [After(Last(r), step)], r.steps + [step]);
    ThenLinked(r, step, r');
    r'
  }

  lemma ThenLinked(r: Run, step: Step, r': Run)
    requires IsPath(r) && Enabled(Last(r), step)
    requires r' == Run(r.states + [After(Last(r), step)], r.steps + [step])
    ensures IsPath(r')
  {
    hide Enabled, After;
    forall i | 0 <= i < |r'.steps| ensures Linked(r', i) {
      assert i < |r.steps| ==> Linked(r, i);
    }
  }

  lemma OnePath(s: State)
    ensures IsPath(Start(s)) && Last(Start(s)) == s
  {
  }

  // ---------- two clients with one address ----------

  function RowOf(address: string, d: Draw, password: string): UserRow {
    UserRow(d.id, address, HashedPassword(d.salt, password), true, d.at.now)
  }

  /** Two clients with one free address, in any spellings, both pass the pre-check. */
  lemma BothChecked(users: UserTable, raw: string, other: string) returns (r: Run)
    requires TableOk(users) && Email(raw).Some? && Email(raw) == Email(other) && !Taken(users, Email(raw).value)
    ensures IsRun(r) && r.states[0].users == users
    ensures r.steps == [Arrive(0, raw), Check(0), Arrive(1, other), Check(1)]
    ensures Last(r) == State(users, map[0 := Client(raw, Checked), 1 := Client(other, Checked)], [])
  {
    hide Email, Taken, Linked, Then, TableOk, Refused;
    OnePath(Idle(users));
    r := Then(Then(Start(Idle(users)), Arrive(0, raw)), Check(0));
    assert Last(r) == State(users, map[0 := Client(raw, Checked)], []);
    r := Then(Then(r, Arrive(1, other)), Check(1));
  }

  /** And both insert. */
  lemma BothInsert(users: UserTable, raw: string, other: string, d: Draw, e: Draw, password: string) returns (r: Run)
    requires TableOk(users) && Email(raw).Some? && Email(raw) == Email(other) && !Taken(users, Email(raw).value)
    requires d.id !in users && e.id !in users && d.id != e.id
    ensures IsRun(r) && r.states[0].users == users
    ensures r.steps == [Arrive(0, raw), Check(0), Arrive(1, other), Check(1),
                        Insert(0, d.id, HashedPassword(d.salt, password), d.at.now),
                        Insert(1, e.id, HashedPassword(e.salt, password), e.at.now)]
    ensures var address := Email(raw).value;
      Last(r) == State(users, map[0 := Client(raw, Inserted(RowOf(address, d, password))),
                                  1 := Client(other, Inserted(RowOf(address, e, password)))], [])
  {
    hide Email, Taken, Linked, Then, TableOk, Refused;
    r := BothChecked(users, raw, other);
    r := Then(r, Insert(0, d.id, HashedPassword(d.salt, password), d.at.now));
    r := Then(r, Insert(1, e.id, HashedPassword(e.salt, password), e.at.now));
  }

  /** The first commit succeeds and the unique index refuses the second one. */
  lemma SecondRefused(s: State, c: nat, k: nat, row: UserRow, other: UserRow)
    requires c != k && c in s.clients && k in s.clients && !Taken(s.users, row.email)
    requires s.clients[c].phase == Inserted(row) && s.clients[k].phase == Inserted(other)
    requires row.email == other.email && row.id != other.id && row.id !in s.users && other.id !in s.users
    requires UniqueEmails(s.users)
    ensures Enabled(s, Commit(c)) && Enabled(After(s, Commit(c)), Commit(k))
    ensures var s' := After(After(s, Commit(c)), Commit(k));
      s'.clients[c].phase == Durable(row) && s'.clients[k].phase == Done(Failed(EmailAlreadyExists))
  {
    hide Email;
    ClashIffTaken(s.users, row);
    var users := s.users[row.id := row];
    assert users[row.id].email == other.email;
    assert UniqueEmails(users);
    ClashIffTaken(users, other);
  }

  /** The pre-check is not enough: from every table there is a run in which two clients with one free address both pass
      it, and only the unique index stops the second one. */
  lemma PreCheckIsNotEnough(users: UserTable, raw: string, other: string, d: Draw, e: Draw, password: string)
    returns (r: Run)
    requires TableOk(users) && Email(raw).Some? && Email(raw) == Email(other) && !Taken(users, Email(raw).value)
    requires d.id !in users && e.id !in users && d.id != e.id
    ensures IsRun(r) && r.states[0].users == users
    ensures r.steps == [Arrive(0, raw), Check(0), Arrive(1, other), Check(1),
                        Insert(0, d.id, HashedPassword(d.salt, password), d.at.now),
                        Insert(1, e.id, HashedPassword(e.salt, password), e.at.now), Commit(0), Commit(1)]
    ensures Last(r).clients.Keys == {0, 1} && Last(r).clients[0].phase.Durable?
    ensures Last(r).clients[1].phase == Done(Failed(EmailAlreadyExists))
  {
    hide Email, Taken, Linked, Then, NormalEmails, Refused, Enabled;
    var before := BothInsert(users, raw, other, d, e, password);
    var address := Email(raw).value;
    SecondRefused(Last(before), 0, 1, RowOf(address, d, password), RowOf(address, e, password));
    r := Then(Then(before, Commit(0)), Commit(1));
  }

  // ---------- without interleaving ----------

  /** One client on its own goes through the steps that the code takes, and ends as the atomic registration does. */
  lemma AloneIsRegister(before: UserTable, s: State, c: nat, email: string, password: string, d: Draw, ledger: Ledger)
    returns (path: Run)
    requires Inv(before, s) && c !in s.clients
    requires d.id !in s.users && forall k | k in s.clients :: IdOf(s.clients[k].phase) != Some(d.id)
    ensures IsPath(path) && path.states[0] == s
    ensures var r, s' := RegisterReply(Database(s.users, ledger), email, password, d), Last(path);
      && c in s'.clients && s'.clients[c].phase == Done(r.outcome)
      && s'.users == ApplyUsers(s.users, r.users)
      && s'.dispatched == s.dispatched + if r.outcome.Registered? then [EventOf(r.outcome.view)] else []
  {
    hide Email, Taken, Linked, Then, Inv, Refused;
    OnePath(s);
    path := Then(Start(s), Arrive(c, email));
    if Email(email).Some? {
      var address := Email(email).value;
      TakenIff(s.users, address);
      path := Then(path, Check(c));
      if !Taken(s.users, address) {
        path := RegistersAlone(before, s, path, c, email, password, d);
      }
    }
  }

  lemma TakenIff(users: UserTable, address: string)
    ensures Taken(users, address) <==> UserByEmail(users, address).Some?
  {
  }

  lemma RegistersAlone(before: UserTable, s: State, r: Run, c: nat, email: string, password: string, d: Draw)
    returns (r': Run)
    requires Inv(before, s) && d.id !in s.users && Email(email).Some? && !Taken(s.users, Email(email).value)
    requires forall k | k in s.clients :: IdOf(s.clients[k].phase) != Some(d.id)
    requires IsPath(r) && Last(r) == s.(clients := s.clients[c := Client(email, Checked)])
    ensures IsPath(r') && r'.states[0] == r.states[0]
    ensures var row, s' := RowOf(Email(email).value, d, password), Last(r');
      && c in s'.clients && s'.clients[c].phase == Done(Registered(View(row)))
      && s'.users == s.users[d.id := row] && s'.dispatched == s.dispatched + [EventOf(View(row))]
  {
    ClashIffTaken(s.users, RowOf(Email(email).value, d, password));
    hide Email, Taken, Linked, Then, Inv, Refused;
    r' := Then(r, Insert(c, d.id, HashedPassword(d.salt, password), d.at.now));
    r' := Then(Then(r', Commit(c)), Dispatch(c));
  }
}
