/** The in-memory unit of work: dictionaries of the entities themselves. A lookup returns the stored object, so changing
    it changes the store at once; commit and rollback only count. */
module FakeStore {
  import opened Uuids
  import opened Rows
  import opened Ledger
  import opened Commands
  import opened Entities

  /** A dictionary's insertion order: every key once. */
  ghost predicate Order(order: seq<Uuid>, keys: set<Uuid>) {
    && (forall i | 0 <= i < |order| :: order[i] in keys)
    && (forall k | k in keys :: k in order)
    && (forall i, k | 0 <= i < k < |order| :: order[i] != order[k])
  }

  lemma AppendOrder(order: seq<Uuid>, keys: set<Uuid>, key: Uuid)
    requires Order(order, keys) && key !in keys
    ensures Order(order + [key], keys + {key})
  {
    forall k | k in keys + {key} ensures k in order + [key] {
      if k == key {
        assert (order + [key])[|order|] == key;
      } else {
        assert k in order;
      }
    }
  }

  ghost function TokenRowsOf(records: map<Uuid, RefreshTokenRecord>): TokenTable
    reads records.Values
  {
    map j | j in records :: records[j].Row()
  }

  ghost function UserRowsOf(users: map<Uuid, User>): UserTable
    reads users.Values
  {
    map u | u in users :: users[u].Row()
  }

  lemma TokenRowsPut(records: map<Uuid, RefreshTokenRecord>, record: RefreshTokenRecord)
    ensures TokenRowsOf(records[record.jti := record]) == TokenRowsOf(records)[record.jti := record.Row()]
  {
  }

  lemma UserRowsPut(users: map<Uuid, User>, user: User)
    ensures UserRowsOf(users[user.id := user]) == UserRowsOf(users)[user.id := user.Row()]
  {
  }

  class FakeUnitOfWork {
    // Dictionaries with their insertion orders.
    var users: map<Uuid, User>
    var userKeys: seq<Uuid>
    var records: map<Uuid, RefreshTokenRecord>
    var recordKeys: seq<Uuid>
    var commits: nat
    var rollbacks: nat

    /** Keys are ids, so no object is stored twice. */
    ghost predicate Valid()
      reads this`users, this`userKeys, this`records, this`recordKeys
    {
      && (forall u | u in users :: users[u].id == u) && Order(userKeys, users.Keys)
      && (forall j | j in records :: records[j].jti == j) && Order(recordKeys, records.Keys)
    }

    ghost function UserRows(): UserTable
      reads this`users, users.Values
    {
      UserRowsOf(users)
    }

    ghost function TokenRows(): TokenTable
      reads this`records, records.Values
    {
      TokenRowsOf(records)
    }

    /** The stored state as tables. */
    ghost function Db(): Database
      reads this`users, this`records, this`recordKeys, users.Values, records.Values
    {
      Database(UserRows(), Ledger(TokenRows(), recordKeys))
    }

    constructor ()
      ensures Valid() && Db() == Database(map[], Ledger(map[], [])) && commits == 0 && rollbacks == 0
    {
      users, userKeys, records, recordKeys := map[], [], map[], [];
      commits, rollbacks := 0, 0;
    }

    // ---------- refresh-token repository ----------

    /** Stores the record under its jti; a new key goes to the end of the insertion order. */
    method PutToken(record: RefreshTokenRecord)
      requires Valid()
      modifies this`records, this`recordKeys
      ensures Valid() && UserRows() == old(UserRows())
      ensures TokenRows() == old(TokenRows())[record.jti := record.Row()]
      ensures records == old(records)[record.jti := record]
      ensures recordKeys == old(recordKeys) + if record.jti in old(records) then [] else [record.jti]
    {
      hide TokenRowsOf, UserRowsOf;
      var known := record.jti in records;
      TokenRowsPut(records, record);
      records := records[record.jti := record];
      if known {
        assert records.Keys == old(records).Keys;
      } else {
        AppendOrder(recordKeys, old(records).Keys, record.jti);
        recordKeys := recordKeys + [record.jti];
        assert records.Keys == old(records).Keys + {record.jti};
      }
    }

    method GetByJti(jti: Uuid) returns (record: RefreshTokenRecord?)
      ensures record == null <==> jti !in records
      ensures record != null ==> record == records[jti]
    {
      record := if jti in records then records[jti] else null;
    }

    /** Revokes the records of the family one object at a time. */
    method RevokeTokensOfFamily(family: Uuid, at: Time)
      requires Valid()
      modifies records.Values
      ensures UserRows() == old(UserRows())
      ensures TokenRows() == RevokeFamily(old(TokenRows()), family, at)
    {
      for i := 0 to |recordKeys|
        invariant forall k | 0 <= k < i ::
          records[recordKeys[k]].Row() ==
            var row := old(records[recordKeys[k]].Row()); if row.familyId == family then row.Revoked(at) else row
        invariant forall k | i <= k < |recordKeys| :: records[recordKeys[k]].Row() == old(records[recordKeys[k]].Row())
      {
        var record := records[recordKeys[i]];
        if record.familyId == family {
          record.Revoke(at);
        }
      }
    }

    method RevokeAllForUser(user: Uuid, at: Time)
      requires Valid()
      modifies records.Values
      ensures UserRows() == old(UserRows())
      ensures TokenRows() == RevokeUser(old(TokenRows()), user, at)
    {
      for i := 0 to |recordKeys|
        invariant forall k | 0 <= k < i ::
          records[recordKeys[k]].Row() ==
            var row := old(records[recordKeys[k]].Row()); if row.userId == user then row.Revoked(at) else row
        invariant forall k | i <= k < |recordKeys| :: records[recordKeys[k]].Row() == old(records[recordKeys[k]].Row())
      {
        var record := records[recordKeys[i]];
        if record.userId == user {
          record.Revoke(at);
        }
      }
    }

    // ---------- user repository ----------

    method PutUser(user: User)
      requires Valid()
      modifies this`users, this`userKeys
      ensures Valid() && TokenRows() == old(TokenRows())
      ensures UserRows() == old(UserRows())[user.id := user.Row()]
      ensures users == old(users)[user.id := user]
    {
      hide TokenRowsOf, UserRowsOf;
      var known := user.id in users;
      UserRowsPut(users, user);
      users := users[user.id := user];
      if known {
        assert users.Keys == old(users).Keys;
      } else {
        AppendOrder(userKeys, old(users).Keys, user.id);
        userKeys := userKeys + [user.id];
        assert users.Keys == old(users).Keys + {user.id};
      }
    }

    method GetUserById(id: Uuid) returns (user: User?)
      ensures user == null <==> id !in users
      ensures user != null ==> user == users[id]
    {
      user := if id in users then users[id] else null;
    }

    /** The first stored user with this address, in insertion order. */
    method GetUserByEmail(email: string) returns (user: User?)
      requires Valid()
      ensures user == null <==> forall u | u in users :: users[u].email != email
      ensures user != null ==> user.email == email && user.id in users && users[user.id] == user
    {
      user := null;
      for i := 0 to |userKeys|
        invariant forall k | 0 <= k < i :: users[userKeys[k]].email != email
      {
        if users[userKeys[i]].email == email {
          user := users[userKeys[i]];
          return;
        }
      }
      forall u | u in users ensures users[u].email != email {
        assert u in userKeys;
      }
    }

    method Commit()
      modifies this`commits
      ensures commits == old(commits) + 1
    {
      commits := commits + 1;
    }

    method Rollback()
      modifies this`rollbacks
      ensures rollbacks == old(rollbacks) + 1
    {
      rollbacks := rollbacks + 1;
    }
  }
}
