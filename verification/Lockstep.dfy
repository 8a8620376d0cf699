/** The in-memory repositories stand in for the SQL ones: the same sequence of commands, run on both, gives the same
    outcomes, the same events and the same committed rows. */
module Lockstep {
  import opened Jwt
  import opened Ledger
  import opened Commands
  import opened Entities
  import opened SqlStore
  import opened FakeStore
  import SqlHandlers
  import FakeHandlers

  datatype Call = Call(command: Command, draw: Draw)

  /** Every call draws ids that are unused when it runs. */
  ghost predicate Applicable(cfg: Settings, db: Database, calls: seq<Call>)
    decreases |calls|
  {
    calls != [] ==>
      Fresh(db, calls[0].draw) && Applicable(cfg, After(cfg, db, calls[0].command, calls[0].draw), calls[1..])
  }

  ghost predicate Stored(db: Database) {
    UsersValid(db.users) && Keyed(db.ledger)
  }

  lemma StoredStays(cfg: Settings, db: Database, c: Command, d: Draw)
    requires Stored(db) && Fresh(db, d)
    ensures Stored(After(cfg, db, c, d))
  {
    var r := Run(cfg, db, c, d);
    UserEffectPermitted(cfg, db, c, d);
    UsersStayValid(db.users, r.users);
    KeyedStays(db.ledger, r.tokens);
  }

  lemma KeyedStays(l: Ledger, e: Effect)
    requires Keyed(l)
    ensures Keyed(Apply(l, e))
  {
  }

  /** The events of a command: one for a registered user, none otherwise. */
  function EventsOf(r: Reply, d: Draw): seq<UserRegistered> {
    if r.users.Joined? then [UserRegistered(d.id, r.users.user.email, d.at.now)] else []
  }

  /** One request: the handler in a fresh session, which is closed, and so rolled back, at the end. */
  method ServeSql(uow: SqlUnitOfWork, events: EventDispatcher, cfg: Settings, c: Command, d: Draw, ghost r: Reply)
    returns (o: Outcome)
    requires uow.Clean() && Stored(uow.db) && Fresh(uow.db, d) && r == Run(cfg, uow.db, c, d)
    modifies uow, events
    ensures uow.Clean() && o == r.outcome && uow.db == Settled(old(uow.db), r)
    ensures events.dispatched == old(events.dispatched) + EventsOf(r, d)
  {
    UserEffectPermitted(cfg, uow.db, c, d);
    hide RegisterReply, LoginReply, RefreshReply, LogoutReply, ChangePasswordReply, Settled, Fresh, UsersValid;
    match c {
      case Register(email, password) => o := SqlHandlers.CreateUser(uow, events, email, password, d);
      case Login(email, password) => o := SqlHandlers.LogIn(uow, cfg, email, password, d);
      case Refresh(token) => o := SqlHandlers.RefreshTokens(uow, cfg, token, d);
      case Logout(token) => o := SqlHandlers.LogOut(uow, cfg, token, d);
      case ChangePassword(user, current, next) => o := SqlHandlers.ChangeUserPassword(uow, user, current, next, d);
    }
    uow.Rollback();
  }

  method ServeFake(uow: FakeUnitOfWork, events: EventDispatcher, cfg: Settings, c: Command, d: Draw, ghost r: Reply)
    returns (o: Outcome)
    requires uow.Valid() && Stored(uow.Db()) && Fresh(uow.Db(), d) && r == Run(cfg, uow.Db(), c, d)
    modifies uow, uow.users.Values, uow.records.Values, events
    ensures uow.Valid() && o == r.outcome && uow.Db() == Settled(old(uow.Db()), r)
    ensures events.dispatched == old(events.dispatched) + EventsOf(r, d)
    ensures fresh(uow.users.Values - old(uow.users.Values)) && fresh(uow.records.Values - old(uow.records.Values))
  {
    UserEffectPermitted(cfg, uow.Db(), c, d);
    hide RegisterReply, LoginReply, RefreshReply, LogoutReply, ChangePasswordReply, Settled, Fresh, UsersValid;
    match c {
      case Register(email, password) => o := FakeHandlers.CreateUser(uow, events, email, password, d);
      case Login(email, password) => o := FakeHandlers.LogIn(uow, cfg, email, password, d);
      case Refresh(token) => o := FakeHandlers.RefreshTokens(uow, cfg, token, d);
      case Logout(token) => o := FakeHandlers.LogOut(uow, cfg, token, d);
      case ChangePassword(user, current, next) => o := FakeHandlers.ChangeUserPassword(uow, user, current, next, d);
    }
  }

  /** What a sequence of calls leaves behind: the outcomes in order, the events dispatched and the committed database. */
  datatype Transcript = Transcript(outcomes: seq<Outcome>, events: seq<UserRegistered>, db: Database)

  ghost function Expected(cfg: Settings, db: Database, calls: seq<Call>): Transcript
    decreases |calls|
  {
    if calls == [] then Transcript([], [], db) else
      var r := Run(cfg, db, calls[0].command, calls[0].draw);
      var rest := Expected(cfg, Settled(db, r), calls[1..]);
      Transcript([r.outcome] + rest.outcomes, EventsOf(r, calls[0].draw) + rest.events, rest.db)
  }

  /** The transcript of a non-empty sequence, from its first reply and the rest. */
  lemma ExpectedFirst(cfg: Settings, db: Database, calls: seq<Call>, r: Reply, before: seq<UserRegistered>)
    requires calls != [] && r == Run(cfg, db, calls[0].command, calls[0].draw)
    requires Stored(db) && Applicable(cfg, db, calls)
    ensures var db', t := Settled(db, r), Expected(cfg, db, calls);
      var rest := Expected(cfg, db', calls[1..]);
      && Fresh(db, calls[0].draw) && Stored(db') && Applicable(cfg, db', calls[1..])
      && t.outcomes == [r.outcome] + rest.outcomes && t.db == rest.db
      && before + t.events == before + EventsOf(r, calls[0].draw) + rest.events
  {
    hide Run, Settled, Fresh, EventsOf, UsersValid, Keyed;
    StoredStays(cfg, db, calls[0].command, calls[0].draw);
    hide Run, Settled, Fresh, Stored, EventsOf;
    var rest := Expected(cfg, Settled(db, r), calls[1..]);
    assert before + (EventsOf(r, calls[0].draw) + rest.events) == before + EventsOf(r, calls[0].draw) + rest.events;
  }

  method RunSql(uow: SqlUnitOfWork, events: EventDispatcher, cfg: Settings, calls: seq<Call>)
    returns (outcomes: seq<Outcome>)
    requires uow.Clean() && Stored(uow.db) && Applicable(cfg, uow.db, calls)
    modifies uow, events
    ensures uow.Clean()
    ensures var t := Expected(cfg, old(uow.db), calls);
      outcomes == t.outcomes && events.dispatched == old(events.dispatched) + t.events && uow.db == t.db
    decreases |calls|
  {
    if calls == [] {
      assert events.dispatched + [] == events.dispatched;
      return [];
    }
    hide Run, Settled, Fresh, Stored, EventsOf, Expected, Applicable, SqlUnitOfWork.Clean;
    ghost var r := Run(cfg, uow.db, calls[0].command, calls[0].draw);
    ExpectedFirst(cfg, uow.db, calls, r, events.dispatched);
    var first := ServeSql(uow, events, cfg, calls[0].command, calls[0].draw, r);
    var rest := RunSql(uow, events, cfg, calls[1..]);
    outcomes := [first] + rest;
  }

  method RunFake(uow: FakeUnitOfWork, events: EventDispatcher, cfg: Settings, calls: seq<Call>)
    returns (outcomes: seq<Outcome>)
    requires uow.Valid() && Stored(uow.Db()) && Applicable(cfg, uow.Db(), calls)
    modifies uow, uow.users.Values, uow.records.Values, events
    ensures uow.Valid()
    ensures var t := Expected(cfg, old(uow.Db()), calls);
      outcomes == t.outcomes && events.dispatched == old(events.dispatched) + t.events && uow.Db() == t.db
    decreases |calls|
  {
    if calls == [] {
      assert events.dispatched + [] == events.dispatched;
      return [];
    }
    hide Run, Settled, Fresh, Stored, EventsOf, Expected, Applicable, FakeUnitOfWork.Db, FakeUnitOfWork.Valid;
    ghost var r := Run(cfg, uow.Db(), calls[0].command, calls[0].draw);
    ExpectedFirst(cfg, uow.Db(), calls, r, events.dispatched);
    var first := ServeFake(uow, events, cfg, calls[0].command, calls[0].draw, r);
    var rest := RunFake(uow, events, cfg, calls[1..]);
    outcomes := [first] + rest;
  }

  /** From equal committed rows, any sequence of calls gives equal outcomes, equal events and equal committed rows. */
  method RunBoth(sql: SqlUnitOfWork, fake: FakeUnitOfWork, sqlEvents: EventDispatcher, fakeEvents: EventDispatcher,
                 cfg: Settings, calls: seq<Call>) returns (fromSql: seq<Outcome>, fromFake: seq<Outcome>)
    requires sqlEvents != fakeEvents && sql.Clean() && fake.Valid() && sql.db == fake.Db()
    requires Stored(sql.db) && Applicable(cfg, sql.db, calls)
    requires sqlEvents.dispatched == fakeEvents.dispatched
    modifies sql, fake, fake.users.Values, fake.records.Values, sqlEvents, fakeEvents
    ensures fromSql == fromFake && |fromSql| == |calls|
    ensures sql.Clean() && fake.Valid() && sql.db == fake.Db()
    ensures sqlEvents.dispatched == fakeEvents.dispatched
  {
    hide Run, Settled, Fresh, Stored, EventsOf;
    OneOutcomeEach(cfg, sql.db, calls);
    fromSql := RunSql(sql, sqlEvents, cfg, calls);
    fromFake := RunFake(fake, fakeEvents, cfg, calls);
  }

  lemma OneOutcomeEach(cfg: Settings, db: Database, calls: seq<Call>)
    ensures |Expected(cfg, db, calls).outcomes| == |calls|
    decreases |calls|
  {
    if calls != [] {
      OneOutcomeEach(cfg, After(cfg, db, calls[0].command, calls[0].draw), calls[1..]);
    }
  }
}
