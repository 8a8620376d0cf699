/** The SQL-backed unit of work: committed tables, the rows the open transaction sees, the session's tracked copies of
    loaded rows and its pending inserts. Domain entities are copied from and to rows; nothing reaches the committed
    tables before Commit. */
module SqlStore {
  import opened Uuids
  import opened Rows
  import opened Ledger
  import opened Commands
  import opened Entities

  datatype CommitResult = Committed | EmailViolation | OtherViolation

  function InsertTokens(rows: TokenTable, added: seq<TokenRow>): TokenTable {
    if added == [] then rows
    else InsertTokens(rows, added[..|added| - 1])[added[|added| - 1].jti := added[|added| - 1]]
  }

  function InsertUsers(users: UserTable, added: seq<UserRow>): UserTable {
    if added == [] then users
    else InsertUsers(users, added[..|added| - 1])[added[|added| - 1].id := added[|added| - 1]]
  }

  function Jtis(added: seq<TokenRow>): seq<Uuid> {
    if added == [] then [] else Jtis(added[..|added| - 1]) + [added[|added| - 1].jti]
  }

  /** Two rows of a table that the unique index on email cannot hold together. */
  predicate EmailClash(users: UserTable) {
    exists u, v | u in users && v in users :: u != v && users[u].email == users[v].email
  }

  /** An insert whose primary key is taken, or two inserts with one key. */
  predicate KeyClash(keys: set<Uuid>, added: seq<Uuid>) {
    || (exists i | 0 <= i < |added| :: added[i] in keys)
    || (exists i, k | 0 <= i < k < |added| :: added[i] == added[k])
  }

  function UserIds(added: seq<UserRow>): seq<Uuid> {
    if added == [] then [] else UserIds(added[..|added| - 1]) + [added[|added| - 1].id]
  }

  lemma ClashAppend(keys: set<Uuid>, a: seq<Uuid>, x: Uuid)
    ensures KeyClash(keys, a + [x]) <==> KeyClash(keys, a) || x in keys || x in a
  {
    var b := a + [x];
    if KeyClash(keys, a) {
      if i :| 0 <= i < |a| && a[i] in keys {
        assert b[i] in keys;
      } else {
        var i, k :| 0 <= i < k < |a| && a[i] == a[k];
        assert b[i] == b[k];
      }
    }
    if x in keys {
      assert b[|a|] in keys;
    }
    if i :| 0 <= i < |a| && a[i] == x {
      assert b[i] == b[|a|];
    }
  }

  lemma NoClash(keys: set<Uuid>)
    ensures !KeyClash(keys, [])
  {
  }

  lemma OneMore<T>(m: map<Uuid, T>, k: Uuid, v: T)
    ensures |m[k := v]| == |m| + if k in m then 0 else 1
  {
    assert m[k := v].Keys == m.Keys + {k};
    assert |m.Keys| == |m| && |m[k := v].Keys| == |m[k := v]|;
  }

  lemma {:induction false} TokensKeys(rows: TokenTable, added: seq<TokenRow>)
    ensures |Jtis(added)| == |added| && forall i | 0 <= i < |added| :: Jtis(added)[i] == added[i].jti
    ensures forall j :: j in InsertTokens(rows, added) <==> j in rows || j in Jtis(added)
  {
    if added != [] {
      TokensKeys(rows, added[..|added| - 1]);
    }
  }

  /** A flush violates the primary key of the token table exactly if it would lose a row. */
  lemma {:induction false} TokensClashIff(rows: TokenTable, added: seq<TokenRow>)
    ensures |InsertTokens(rows, added)| <= |rows| + |added|
    ensures KeyClash(rows.Keys, Jtis(added)) <==> |InsertTokens(rows, added)| < |rows| + |added|
  {
    hide KeyClash;
    if added == [] {
      NoClash(rows.Keys);
    } else {
      var before, last := added[..|added| - 1], added[|added| - 1];
      TokensClashIff(rows, before);
      TokensKeys(rows, before);
      ClashAppend(rows.Keys, Jtis(before), last.jti);
      OneMore(InsertTokens(rows, before), last.jti, last);
    }
  }

  /** Otherwise every old row is there as it was, and every new one. */
  lemma {:induction false} TokensInserted(rows: TokenTable, added: seq<TokenRow>)
    requires !KeyClash(rows.Keys, Jtis(added))
    ensures forall j | j in rows :: j in InsertTokens(rows, added) && InsertTokens(rows, added)[j] == rows[j]
    ensures forall i | 0 <= i < |added| ::
      added[i].jti in InsertTokens(rows, added) && InsertTokens(rows, added)[added[i].jti] == added[i]
  {
    hide KeyClash;
    if added != [] {
      var before, last := added[..|added| - 1], added[|added| - 1];
      TokensKeys(rows, before);
      ClashAppend(rows.Keys, Jtis(before), last.jti);
      TokensInserted(rows, before);
      forall i | 0 <= i < |before| ensures before[i].jti != last.jti {
        assert Jtis(before)[i] in Jtis(before);
      }
    }
  }

  lemma {:induction false} UsersKeys(users: UserTable, added: seq<UserRow>)
    ensures |UserIds(added)| == |added| && forall i | 0 <= i < |added| :: UserIds(added)[i] == added[i].id
    ensures forall j :: j in InsertUsers(users, added) <==> j in users || j in UserIds(added)
  {
    if added != [] {
      UsersKeys(users, added[..|added| - 1]);
    }
  }

  /** A flush violates the primary key of the users table exactly if it would lose a row. */
  lemma {:induction false} UsersClashIff(users: UserTable, added: seq<UserRow>)
    ensures |InsertUsers(users, added)| <= |users| + |added|
    ensures KeyClash(users.Keys, UserIds(added)) <==> |InsertUsers(users, added)| < |users| + |added|
  {
    hide KeyClash;
    if added == [] {
      NoClash(users.Keys);
    } else {
      var before, last := added[..|added| - 1], added[|added| - 1];
      UsersClashIff(users, before);
      UsersKeys(users, before);
      ClashAppend(users.Keys, UserIds(before), last.id);
      OneMore(InsertUsers(users, before), last.id, last);
    }
  }

  /** Otherwise every old row is there as it was, and every new one. */
  lemma {:induction false} UsersInserted(users: UserTable, added: seq<UserRow>)
    requires !KeyClash(users.Keys, UserIds(added))
    ensures forall j | j in users :: j in InsertUsers(users, added) && InsertUsers(users, added)[j] == users[j]
    ensures forall i | 0 <= i < |added| ::
      added[i].id in InsertUsers(users, added) && InsertUsers(users, added)[added[i].id] == added[i]
  {
    hide KeyClash;
    if added != [] {
      var before, last := added[..|added| - 1], added[|added| - 1];
      UsersKeys(users, before);
      ClashAppend(users.Keys, UserIds(before), last.id);
      UsersInserted(users, before);
      forall i | 0 <= i < |before| ensures before[i].id != last.id {
        assert UserIds(before)[i] in UserIds(before);
      }
    }
  }

  class SqlUnitOfWork {
    var db: Database
    var users: UserTable
    var tokens: TokenTable
    var trackedUsers: UserTable
    var trackedTokens: TokenTable
    var newUsers: seq<UserRow>
    var newTokens: seq<TokenRow>

    /** A session just opened on the committed tables. */
    ghost predicate Clean()
      reads this
    {
      && users == db.users && tokens == db.ledger.rows
      && trackedUsers == map[] && trackedTokens == map[] && newUsers == [] && newTokens == []
    }

    /** Loaded rows as the session holds them, over the rows of the transaction. */
    ghost function SeenUsers(): UserTable
      reads this
    {
      users + trackedUsers
    }

    ghost function SeenTokens(): TokenTable
      reads this
    {
      tokens + trackedTokens
    }

    constructor (db: Database)
      ensures Clean() && this.db == db
    {
      this.db := db;
      users, tokens := db.users, db.ledger.rows;
      trackedUsers, trackedTokens, newUsers, newTokens := map[], map[], [], [];
    }

    // ---------- refresh-token repository ----------

    method AddToken(record: RefreshTokenRecord)
      modifies this`newTokens
      ensures newTokens == old(newTokens) + [record.Row()]
    {
      newTokens := newTokens + [record.Row()];
    }

    /** Copies the record's revocation onto the tracked row; false where the repository's update raises InvalidTokenError. */
    method UpdateToken(record: RefreshTokenRecord) returns (found: bool)
      modifies this`trackedTokens
      ensures found <==> record.jti in old(SeenTokens())
      ensures SeenTokens() ==
        if found then old(SeenTokens())[record.jti := old(SeenTokens())[record.jti].(revokedAt := record.revokedAt)]
        else old(SeenTokens())
    {
      if record.jti in trackedTokens {
        trackedTokens := trackedTokens[record.jti := trackedTokens[record.jti].(revokedAt := record.revokedAt)];
        found := true;
      } else if record.jti in tokens {
        trackedTokens := trackedTokens[record.jti := tokens[record.jti].(revokedAt := record.revokedAt)];
        found := true;
      } else {
        found := false;
      }
    }

    method GetByJti(jti: Uuid) returns (record: RefreshTokenRecord?)
      modifies this`trackedTokens
      ensures SeenTokens() == old(SeenTokens())
      ensures record == null <==> jti !in SeenTokens()
      ensures record != null ==> fresh(record) && record.Row() == SeenTokens()[jti]
    {
      if jti in trackedTokens {
        record := new RefreshTokenRecord(trackedTokens[jti]);
      } else if jti in tokens {
        trackedTokens := trackedTokens[jti := tokens[jti]];
        record := new RefreshTokenRecord(tokens[jti]);
      } else {
        record := null;
      }
    }

    /** One bulk UPDATE on the transaction's rows, carried over to the tracked copies. */
    method RevokeTokensOfFamily(family: Uuid, at: Time)
      modifies this`tokens, this`trackedTokens
      ensures SeenTokens() == RevokeFamily(old(SeenTokens()), family, at)
    {
      tokens := RevokeFamily(tokens, family, at);
      trackedTokens := RevokeFamily(trackedTokens, family, at);
    }

    method RevokeAllForUser(user: Uuid, at: Time)
      modifies this`tokens, this`trackedTokens
      ensures SeenTokens() == RevokeUser(old(SeenTokens()), user, at)
    {
      tokens := RevokeUser(tokens, user, at);
      trackedTokens := RevokeUser(trackedTokens, user, at);
    }

    // ---------- user repository ----------

    method AddUser(user: User)
      modifies this`newUsers
      ensures newUsers == old(newUsers) + [user.Row()]
    {
      newUsers := newUsers + [user.Row()];
    }

    /** Copies email, hash and activity onto the tracked row; false where the repository's update raises UserNotFoundError. */
    method UpdateUser(user: User) returns (found: bool)
      modifies this`trackedUsers
      ensures found <==> user.id in old(SeenUsers())
      ensures SeenUsers() ==
        if found then old(SeenUsers())[user.id := user.Row().(id := old(SeenUsers())[user.id].id,
                                                               createdAt := old(SeenUsers())[user.id].createdAt)]
        else old(SeenUsers())
    {
      found := user.id in trackedUsers || user.id in users;
      if found {
        var row := if user.id in trackedUsers then trackedUsers[user.id] else users[user.id];
        trackedUsers := trackedUsers[user.id :=
          row.(email := user.email, hashedPassword := user.hashedPassword, isActive := user.isActive)];
      }
    }

    method GetUserById(id: Uuid) returns (user: User?)
      modifies this`trackedUsers
      ensures SeenUsers() == old(SeenUsers())
      ensures user == null <==> id !in SeenUsers()
      ensures user != null ==> fresh(user) && user.Row() == SeenUsers()[id]
    {
      if id in trackedUsers {
        user := new User.Load(trackedUsers[id]);
      } else if id in users {
        trackedUsers := trackedUsers[id := users[id]];
        user := new User.Load(users[id]);
      } else {
        user := null;
      }
    }

    /** A SELECT on the transaction's rows; a row the session already tracks is returned as tracked. The unique index
        leaves at most one match. */
    method GetUserByEmail(email: string) returns (user: User?)
      requires UsersValid(users)
      modifies this`trackedUsers
      ensures SeenUsers() == old(SeenUsers())
      ensures user == null <==> UserByEmail(users, email).None?
      ensures user != null ==> fresh(user) && user.Row() == SeenUsers()[UserByEmail(users, email).value.id]
    {
      if id :| id in users && users[id].email == email {
        var row := if id in trackedUsers then trackedUsers[id] else users[id];
        trackedUsers := trackedUsers[id := row];
        user := new User.Load(row);
      } else {
        user := null;
      }
    }

    method ExistsByEmail(email: string) returns (exist: bool)
      ensures exist <==> UserByEmail(users, email).Some?
    {
      exist := exists id | id in users :: users[id].email == email;
    }

    // ---------- commit and rollback ----------

    /** The database that a commit would leave. */
    ghost function Flushed(): Database
      reads this
    {
      Database(InsertUsers(SeenUsers(), newUsers),
               Ledger(InsertTokens(SeenTokens(), newTokens), db.ledger.log + Jtis(newTokens)))
    }

    ghost predicate ViolatesKey()
      reads this
    {
      KeyClash(SeenUsers().Keys, UserIds(newUsers)) || KeyClash(SeenTokens().Keys, Jtis(newTokens))
    }

    ghost predicate ViolatesEmail()
      reads this
    {
      EmailClash(InsertUsers(SeenUsers(), newUsers))
    }

    /** Writes tracked changes and pending inserts in one transaction. A violation rolls everything back. */
    method Commit() returns (result: CommitResult)
      modifies this
      ensures result ==
        if old(ViolatesKey()) then OtherViolation else if old(ViolatesEmail()) then EmailViolation else Committed
      ensures db == if result.Committed? then old(Flushed()) else old(db)
      ensures !result.Committed? ==> Clean()
    {
      var flushedUsers := InsertUsers(users + trackedUsers, newUsers);
      var flushedTokens := InsertTokens(tokens + trackedTokens, newTokens);
      if KeyClash((users + trackedUsers).Keys, UserIds(newUsers)) || KeyClash((tokens + trackedTokens).Keys, Jtis(newTokens)) {
        Rollback();
        result := OtherViolation;
      } else if EmailClash(flushedUsers) {
        Rollback();
        result := EmailViolation;
      } else {
        db := Database(flushedUsers, Ledger(flushedTokens, db.ledger.log + Jtis(newTokens)));
        users, tokens, newUsers, newTokens := flushedUsers, flushedTokens, [], [];
        result := Committed;
      }
    }

    method Rollback()
      modifies this
      ensures Clean() && db == old(db)
    {
      users, tokens := db.users, db.ledger.rows;
      trackedUsers, trackedTokens, newUsers, newTokens := map[], map[], [], [];
    }
  }
}
