/**
 * The storage layer: the `users` and `coffees` tables as in-memory rows, the connection
 * guard of `getDatabase`/`closeDatabase`, the query helpers, and the newer uid-keyed
 * interface (`saveCoffee(userId, uid, data)`, `replaceUserCoffees`, `beginTransaction`,
 * `commit`, `rollback`) that the coffee routes call.
 *
 * `CURRENT_TIMESTAMP` reads a clock that only the passing of time advances (`Db.Tick`):
 * every write inside one request is stamped with the same instant, so timestamps can tie.
 * A coffee row stores its document as the parsed value; `JSON.stringify` and `JSON.parse`
 * are taken to be inverse.
 */
module Database {
  import opened Wrappers
  import opened Text
  import opened JsValue

  datatype Backend = PostgreSql | Sqlite

  datatype DbError =
    | NotInitialized    // getDatabase() before initDatabase() or after closeDatabase()
    | ConnectionFailed  // the PostgreSQL connection test failed
    | UniqueViolation   // a UNIQUE column of the schema would hold a duplicate
    | IoFailure         // the storage call itself failed
    | NoTransaction     // commit or rollback with no transaction open
    | TransactionOpen   // beginTransaction inside a transaction
    | ForeignKeyViolation  // PostgreSQL: a coffee row for a user id that `users` does not hold

  /** A row of `users`. */
  datatype User = User(
    id: nat,
    username: string,
    token: string,
    deviceId: Option<string>,
    deviceInfo: Option<string>,
    lastLoginAt: Option<nat>,
    createdAt: nat)

  /** What `SELECT id, username, device_id, created_at FROM users` yields for one row. */
  datatype UserRow = UserRow(id: nat, username: string, deviceId: Option<string>, createdAt: nat)

  function RowOf(u: User): UserRow {
    UserRow(u.id, u.username, u.deviceId, u.createdAt)
  }

  /** A row of `coffees`; `uid` is the stable coffee uid of the newer schema, absent on rows
      written by the insert-only `saveCoffee(userId, data)`. */
  datatype CoffeeRow = CoffeeRow(id: nat, userId: nat, uid: Option<string>, data: Value, createdAt: nat)

  datatype Tables = Tables(users: seq<User>, coffees: seq<CoffeeRow>)

  // ---------------------------------------------------------------------------
  // Table invariants
  // ---------------------------------------------------------------------------

  /** The UNIQUE and PRIMARY KEY columns of `users`: id, username and token. */
  predicate UsersUnique(users: seq<User>) {
    var k := Keys(users);
    forall i, j :: 0 <= i < j < |k| ==> k[i].0 != k[j].0 && k[i].1 != k[j].1 && k[i].2 != k[j].2
  }

  /** The unique columns of each row: `id`, `username` and `token`. */
  function Keys(users: seq<User>): (k: seq<(nat, string, string)>)
    ensures |k| == |users|
  {
    seq(|users|, i requires 0 <= i < |users| => (users[i].id, users[i].username, users[i].token))
  }

  /** Two distinct rows of unique users differ in every unique column. */
  lemma UniqueAt(users: seq<User>, i: nat, j: nat)
    requires UsersUnique(users) && i < |users| && j < |users| && i != j
    ensures users[i].id != users[j].id && users[i].username != users[j].username && users[i].token != users[j].token
  {
    var k := Keys(users);
    assert k[i] == (users[i].id, users[i].username, users[i].token);
    assert k[j] == (users[j].id, users[j].username, users[j].token);
    if i > j {
      assert k[j].0 != k[i].0;
    }
  }

  /** Appending a row that clashes with no existing row on a unique column keeps the rows unique. */
  lemma AppendUnique(users: seq<User>, u: User)
    requires UsersUnique(users)
    requires forall x :: x in users ==> x.id != u.id && x.username != u.username && x.token != u.token
    ensures UsersUnique(users + [u])
  {
    var all := users + [u];
    var k := Keys(all);
    forall i, j | 0 <= i < j < |k| ensures k[i].0 != k[j].0 && k[i].1 != k[j].1 && k[i].2 != k[j].2 {
      assert k[i] == (all[i].id, all[i].username, all[i].token);
      assert k[j] == (all[j].id, all[j].username, all[j].token);
      if j < |users| {
        UniqueAt(users, i, j);
      } else {
        assert all[i] in users;
      }
    }
  }

  /** Rows appear in insertion order: their ids strictly increase. Timestamps need not. */
  predicate Increasing(rows: seq<CoffeeRow>) {
    var k := Ids(rows);
    forall i, j :: 0 <= i < j < |k| ==> k[i] < k[j]
  }

  /** The id of each row. */
  function Ids(rows: seq<CoffeeRow>): (k: seq<nat>)
    ensures |k| == |rows|
  {
    seq(|rows|, i requires 0 <= i < |rows| => rows[i].id)
  }

  /** Of two rows of an ordered table, the earlier has the smaller id. */
  lemma IncreasingAt(rows: seq<CoffeeRow>, i: nat, j: nat)
    requires Increasing(rows) && i < j < |rows|
    ensures rows[i].id < rows[j].id
  {
    var k := Ids(rows);
    assert k[i] == rows[i].id && k[j] == rows[j].id;
  }

  /** A user holds at most one row per stable uid. */
  predicate UidsUnique(rows: seq<CoffeeRow>) {
    var k := UidKeys(rows);
    forall i, j :: 0 <= i < j < |k| && k[i].0 == k[j].0 && k[i].1.Some? ==> k[i].1 != k[j].1
  }

  /** The owner and the uid of each row. */
  function UidKeys(rows: seq<CoffeeRow>): (k: seq<(nat, Option<string>)>)
    ensures |k| == |rows|
  {
    seq(|rows|, i requires 0 <= i < |rows| => (rows[i].userId, rows[i].uid))
  }

  /** Two rows of one user at different places never share a uid. */
  lemma UidsAt(rows: seq<CoffeeRow>, i: nat, j: nat)
    requires UidsUnique(rows) && i < |rows| && j < |rows| && i != j
    requires rows[i].userId == rows[j].userId && rows[i].uid.Some?
    ensures rows[i].uid != rows[j].uid
  {
    var k := UidKeys(rows);
    assert k[i] == (rows[i].userId, rows[i].uid) && k[j] == (rows[j].userId, rows[j].uid);
  }

  /** Rows drawn from a table with unique uids, in the same order, keep them unique. */
  lemma SubsetUnique(rows: seq<CoffeeRow>, r: seq<CoffeeRow>)
    requires Increasing(rows) && UidsUnique(rows) && Increasing(r)
    requires forall x :: x in r ==> x in rows
    ensures UidsUnique(r)
  {
    var k := UidKeys(r);
    forall i, j | 0 <= i < j < |k| && k[i].0 == k[j].0 && k[i].1.Some? ensures k[i].1 != k[j].1 {
      assert k[i] == (r[i].userId, r[i].uid) && k[j] == (r[j].userId, r[j].uid);
      assert r[i] in r && r[j] in r;
      var a :| 0 <= a < |rows| && rows[a] == r[i];
      var b :| 0 <= b < |rows| && rows[b] == r[j];
      IncreasingAt(r, i, j);
      UidsAt(rows, a, b);
    }
  }

  /** Rows drawn from a valid table, in the same order, form a valid table. */
  lemma SubsetValid(rows: seq<CoffeeRow>, r: seq<CoffeeRow>, nextId: nat, clock: nat)
    requires ValidCoffees(rows, nextId, clock) && Increasing(r)
    requires forall x :: x in r ==> x in rows
    ensures ValidCoffees(r, nextId, clock)
  {
    SubsetUnique(rows, r);
    forall i | 0 <= i < |r| ensures r[i].id < nextId && r[i].createdAt <= clock {
      assert r[i] in r;
      var a :| 0 <= a < |rows| && rows[a] == r[i];
      BelowAt(rows, nextId, clock, a);
    }
  }

  /** The `users` rows are unique and were all created no later than `clock` under ids below `nextId`. */
  predicate ValidUsers(users: seq<User>, nextId: nat, clock: nat) {
    UsersUnique(users) && forall i :: 0 <= i < |users| ==> users[i].id < nextId && users[i].createdAt <= clock
  }

  /** The `coffees` rows are in insertion order, unique per (user, uid), and below the id sequence and the clock. */
  predicate ValidCoffees(coffees: seq<CoffeeRow>, nextId: nat, clock: nat) {
    Increasing(coffees) && UidsUnique(coffees)
    && Below(coffees, nextId, clock)
  }

  /** Every row has an id below `nextId` and a timestamp no later than `clock`. */
  predicate Below(rows: seq<CoffeeRow>, nextId: nat, clock: nat) {
    var k := Stamps(rows);
    forall i :: 0 <= i < |k| ==> k[i].0 < nextId && k[i].1 <= clock
  }

  /** The id and the creation time of each row. */
  function Stamps(rows: seq<CoffeeRow>): (k: seq<(nat, nat)>)
    ensures |k| == |rows|
  {
    seq(|rows|, i requires 0 <= i < |rows| => (rows[i].id, rows[i].createdAt))
  }

  lemma BelowAt(rows: seq<CoffeeRow>, nextId: nat, clock: nat, i: nat)
    requires Below(rows, nextId, clock) && i < |rows|
    ensures rows[i].id < nextId && rows[i].createdAt <= clock
  {
    assert Stamps(rows)[i] == (rows[i].id, rows[i].createdAt);
  }

  predicate ValidTables(t: Tables, nextUserId: nat, nextCoffeeId: nat, clock: nat) {
    ValidUsers(t.users, nextUserId, clock) && ValidCoffees(t.coffees, nextCoffeeId, clock)
  }

  // ---------------------------------------------------------------------------
  // Queries over the tables
  // ---------------------------------------------------------------------------

  /** The row with `token`, and with `device_id = deviceId` too when a device id is given. */
  function LookupToken(users: seq<User>, token: string, deviceId: Option<string>): Option<UserRow> {
    if users == [] then None
    else if users[0].token == token && (deviceId.None? || users[0].deviceId == deviceId) then Some(RowOf(users[0]))
    else LookupToken(users[1..], token, deviceId)
  }

  /** The lookup finds a row with the token (and the device, when one is given) exactly when
      one exists. */
  lemma {:induction false} LookupTokenFinds(users: seq<User>, token: string, deviceId: Option<string>)
    ensures var r := LookupToken(users, token, deviceId);
      && (r.Some? ==>
            exists u :: u in users && u.token == token && r.value == RowOf(u) && (deviceId.Some? ==> u.deviceId == deviceId))
      && (r.None? ==> forall u :: u in users && u.token == token ==> deviceId.Some? && u.deviceId != deviceId)
  {
    if users != [] {
      LookupTokenFinds(users[1..], token, deviceId);
      assert forall u :: u in users ==> u == users[0] || u in users[1..];
    }
  }

  /** Whether some row of `users` satisfies `device_id = deviceId`. */
  predicate DeviceTaken(users: seq<User>, deviceId: string) {
    exists u :: u in users && u.deviceId == Some(deviceId)
  }

  /** On SQLite, whose `device_id` column is UNIQUE, binding `deviceId` to `userId` conflicts
      with another row that holds it. */
  predicate BindConflict(handle: Option<Backend>, users: seq<User>, userId: nat, deviceId: string) {
    handle == Some(Sqlite) && exists u :: u in users && u.id != userId && u.deviceId == Some(deviceId)
  }

  /** PostgreSQL enforces the foreign key `coffees.user_id -> users.id`; SQLite leaves it unchecked. */
  predicate ForeignKeyRejects(handle: Option<Backend>, users: seq<User>, userId: nat) {
    handle == Some(PostgreSql) && !exists u :: u in users && u.id == userId
  }

  /** `SELECT id FROM users WHERE LOWER(username) = LOWER(name)` finds a row. */
  predicate NameTaken(users: seq<User>, name: string) {
    exists u :: u in users && Lower(u.username) == Lower(name)
  }

  /** `UPDATE users SET last_login_at = t WHERE id = userId`. */
  function WithLastLogin(users: seq<User>, userId: nat, t: nat): (r: seq<User>)
    ensures |r| == |users|
    ensures forall i :: 0 <= i < |users| ==>
      r[i] == if users[i].id == userId then users[i].(lastLoginAt := Some(t)) else users[i]
  {
    seq(|users|, i requires 0 <= i < |users| =>
      if users[i].id == userId then users[i].(lastLoginAt := Some(t)) else users[i])
  }

  /** `UPDATE users SET device_id, device_info, last_login_at WHERE id = userId`. */
  function WithDevice(users: seq<User>, userId: nat, deviceId: string, info: string, t: nat): (r: seq<User>)
    ensures |r| == |users|
    ensures forall i :: 0 <= i < |users| ==>
      r[i] == if users[i].id == userId
        then users[i].(deviceId := Some(deviceId), deviceInfo := Some(info), lastLoginAt := Some(t))
        else users[i]
  {
    seq(|users|, i requires 0 <= i < |users| =>
      if users[i].id == userId
      then users[i].(deviceId := Some(deviceId), deviceInfo := Some(info), lastLoginAt := Some(t))
      else users[i])
  }

  /** Keeping the first row in front of rows drawn from the others keeps the order. */
  lemma HeadFirst(rows: seq<CoffeeRow>, rest: seq<CoffeeRow>)
    requires rows != []
    requires forall x :: x in rest ==> x in rows[1..]
    ensures Increasing(rows) && Increasing(rest) ==> Increasing([rows[0]] + rest)
  {
    if Increasing(rows) && Increasing(rest) {
      var s := [rows[0]] + rest;
      forall i, j | 0 <= i < j < |s| ensures s[i].id < s[j].id {
        if i == 0 {
          assert s[j] == rest[j - 1] && rest[j - 1] in rest;
          var k :| 0 <= k < |rows[1..]| && rows[1..][k] == s[j];
          assert rows[k + 1] == s[j];
          IncreasingAt(rows, 0, k + 1);
        } else {
          assert s[i] == rest[i - 1] && s[j] == rest[j - 1];
          IncreasingAt(rest, i - 1, j - 1);
        }
      }
    }
  }

  lemma TailIncreasing(rows: seq<CoffeeRow>)
    requires rows != []
    ensures Increasing(rows) ==> Increasing(rows[1..])
  {
    if Increasing(rows) {
      var s := rows[1..];
      forall i, j | 0 <= i < j < |s| ensures s[i].id < s[j].id {
        IncreasingAt(rows, i + 1, j + 1);
      }
    }
  }

  /** The rows of one user, in table order. */
  function OfUser(rows: seq<CoffeeRow>, userId: nat): (r: seq<CoffeeRow>)
    ensures forall x :: x in r <==> x in rows && x.userId == userId
    ensures Increasing(rows) ==> Increasing(r)
  {
    if rows == [] then []
    else
    TailIncreasing(rows);
    if rows[0].userId == userId then
      var rest := OfUser(rows[1..], userId);
      HeadFirst(rows, rest);
      [rows[0]] + rest
    else OfUser(rows[1..], userId)
  }

  /** `DELETE FROM coffees WHERE user_id = userId`: the rows of everyone else. */
  function WithoutUser(rows: seq<CoffeeRow>, userId: nat): (r: seq<CoffeeRow>)
    ensures forall x :: x in r <==> x in rows && x.userId != userId
    ensures Increasing(rows) ==> Increasing(r)
  {
    if rows == [] then []
    else
    TailIncreasing(rows);
    if rows[0].userId != userId then
      var rest := WithoutUser(rows[1..], userId);
      HeadFirst(rows, rest);
      [rows[0]] + rest
    else WithoutUser(rows[1..], userId)
  }

  /** The rows `replaceUserCoffees(userId, keep)` leaves: every other user's rows, and the
      user's rows whose uid is one of `keep`. */
  function KeepUids(rows: seq<CoffeeRow>, userId: nat, keep: seq<string>): (r: seq<CoffeeRow>)
    ensures forall x :: x in r <==> x in rows && (x.userId != userId || (x.uid.Some? && x.uid.value in keep))
    ensures Increasing(rows) ==> Increasing(r)
  {
    if rows == [] then []
    else
    TailIncreasing(rows);
    if rows[0].userId != userId || (rows[0].uid.Some? && rows[0].uid.value in keep) then
      var rest := KeepUids(rows[1..], userId, keep);
      HeadFirst(rows, rest);
      [rows[0]] + rest
    else KeepUids(rows[1..], userId, keep)
  }

  /** Timestamps never increase along `r`. */
  predicate Descending(r: seq<CoffeeRow>) {
    forall i, j :: 0 <= i < j < |r| ==> r[i].createdAt >= r[j].createdAt
  }

  /**
   * `WHERE user_id = userId ORDER BY created_at DESC`: `r` holds the user's rows, each as often
   * as the table does, newest first. Rows stamped with the same instant may come in any order.
   */
  predicate NewestOrder(r: seq<CoffeeRow>, rows: seq<CoffeeRow>, userId: nat) {
    multiset(r) == multiset(OfUser(rows, userId)) && Descending(r)
  }

  /** `x` placed in front of the first row of `s` that is no newer than it. */
  function InsertNewest(x: CoffeeRow, s: seq<CoffeeRow>): (r: seq<CoffeeRow>)
    requires Descending(s)
    ensures Descending(r) && multiset(r) == multiset(s) + multiset{x}
  {
    assert s != [] ==> s == [s[0]] + s[1..];
    if s == [] || x.createdAt >= s[0].createdAt then
      NoNewerThanHead(s, x);
      [x] + s
    else
      var rest := InsertNewest(x, s[1..]);
      NoNewerThanHead(s[1..], s[0]);
      DescendingCons(s[0], rest, s[1..], x);
      [s[0]] + rest
  }

  /** Every row of `s` is no newer than `h` once its first row is not. */
  lemma NoNewerThanHead(s: seq<CoffeeRow>, h: CoffeeRow)
    requires Descending(s) && (s == [] || s[0].createdAt <= h.createdAt)
    ensures forall y :: y in s ==> y.createdAt <= h.createdAt
    ensures Descending([h] + s)
  {
    assert forall k :: 0 < k < |s| ==> s[k].createdAt <= s[0].createdAt;
  }

  /** Putting `h` in front of `rest` keeps it descending when `rest` holds only rows of `s` and `x`,
      all of them no newer than `h`. */
  lemma DescendingCons(h: CoffeeRow, rest: seq<CoffeeRow>, s: seq<CoffeeRow>, x: CoffeeRow)
    requires Descending(rest) && multiset(rest) == multiset(s) + multiset{x}
    requires x.createdAt <= h.createdAt && forall y :: y in s ==> y.createdAt <= h.createdAt
    ensures Descending([h] + rest)
  {
    forall k | 0 <= k < |rest| ensures rest[k].createdAt <= h.createdAt {
      assert rest[k] in multiset(rest);
      if rest[k] != x {
        assert rest[k] in multiset(s);
      }
    }
  }

  /** One way of ordering rows newest first: insertion sort on the timestamp. */
  function SortNewest(s: seq<CoffeeRow>): (r: seq<CoffeeRow>)
    ensures Descending(r) && multiset(r) == multiset(s)
  {
    if s == [] then []
    else
      assert s == [s[0]] + s[1..];
      InsertNewest(s[0], SortNewest(s[1..]))
  }

  /** Right after a user's rows are replaced by rows all stamped `t`, every order of them is
      newest first, and nothing else is. */
  lemma RewriteAnyOrder(rows: seq<CoffeeRow>, userId: nat, docs: seq<Value>, n: nat, t: nat, r: seq<CoffeeRow>)
    ensures NewestOrder(r, WithoutUser(rows, userId) + Inserted(userId, docs, n, t), userId)
        <==> multiset(r) == multiset(Inserted(userId, docs, n, t))
  {
    var ins := Inserted(userId, docs, n, t);
    RewriteRows(rows, userId, docs, n, t, userId + 1);
    if multiset(r) == multiset(ins) {
      forall i | 0 <= i < |r| ensures r[i].createdAt == t {
        assert r[i] in multiset(ins);
      }
    }
  }

  /** The index of the row `(userId, uid)`, if the user has one. */
  function FindUid(rows: seq<CoffeeRow>, userId: nat, uid: string): (k: Option<nat>)
    ensures k.Some? ==> k.value < |rows| && rows[k.value].userId == userId && rows[k.value].uid == Some(uid)
  {
    if rows == [] then None
    else if rows[0].userId == userId && rows[0].uid == Some(uid) then Some(0)
    else match FindUid(rows[1..], userId, uid)
      case None => None
      case Some(k) => Some(k + 1)
  }

  /** When `FindUid` finds nothing, the user has no row with that uid. */
  lemma {:induction false} FindUidNone(rows: seq<CoffeeRow>, userId: nat, uid: string)
    ensures FindUid(rows, userId, uid).None? ==> forall x :: x in rows && x.userId == userId ==> x.uid != Some(uid)
  {
    if rows != [] {
      FindUidNone(rows[1..], userId, uid);
      assert forall x :: x in rows ==> x == rows[0] || x in rows[1..];
    }
  }

  /** The coffee rows after the uid-keyed `saveCoffee(userId, uid, data)` at time `t`: the
      user's row with that uid keeps its id and takes the new document and the time `t`;
      without one, a new row `(newId, userId, uid, data, t)` goes at the end. */
  function UpsertRows(rows: seq<CoffeeRow>, userId: nat, uid: string, data: Value, newId: nat, t: nat): seq<CoffeeRow> {
    match FindUid(rows, userId, uid)
    case Some(k) => rows[k := rows[k].(data := data, createdAt := t)]
    case None => rows + [CoffeeRow(newId, userId, Some(uid), data, t)]
  }

  /** The id `saveCoffee(userId, uid, data)` reports: the existing row's, or the new one's. */
  function UpsertId(rows: seq<CoffeeRow>, userId: nat, uid: string, newId: nat): nat {
    match FindUid(rows, userId, uid)
    case Some(k) => rows[k].id
    case None => newId
  }

  /** The stable uids a user's rows carry. */
  function UidsOf(rows: seq<CoffeeRow>, userId: nat): set<string> {
    set x | x in rows && x.userId == userId && x.uid.Some? :: x.uid.value
  }

  // ---------------------------------------------------------------------------
  // Properties of the queries
  // ---------------------------------------------------------------------------

  /** Deleting one user's coffees removes all of them and leaves every other user's rows. */
  lemma DeleteOnlyThatUser(rows: seq<CoffeeRow>, userId: nat, other: nat)
    requires other != userId
    ensures OfUser(WithoutUser(rows, userId), userId) == []
    ensures OfUser(WithoutUser(rows, userId), other) == OfUser(rows, other)
    decreases |rows|
  {
    if rows != [] {
      DeleteOnlyThatUser(rows[1..], userId, other);
    }
  }

  /** An upsert at the current time keeps the coffee table valid and advances its id bound by one. */
  lemma UpsertValid(rows: seq<CoffeeRow>, userId: nat, uid: string, data: Value, newId: nat, t: nat)
    requires ValidCoffees(rows, newId, t)
    ensures ValidCoffees(UpsertRows(rows, userId, uid, data, newId, t), newId + 1, t)
  {
    match FindUid(rows, userId, uid)
    case Some(k) => UpdateValid(rows, k, data, newId, t);
    case None =>
      FindUidNone(rows, userId, uid);
      AppendValid(rows, CoffeeRow(newId, userId, Some(uid), data, t), t);
  }

  lemma UpdateValid(rows: seq<CoffeeRow>, k: nat, data: Value, nextId: nat, clock: nat)
    requires k < |rows| && ValidCoffees(rows, nextId, clock)
    ensures ValidCoffees(rows[k := rows[k].(data := data, createdAt := clock)], nextId + 1, clock)
  {
    var r := rows[k := rows[k].(data := data, createdAt := clock)];
    assert UidKeys(r) == UidKeys(rows);
    assert Ids(r) == Ids(rows);
    forall i | 0 <= i < |r| ensures Stamps(r)[i].0 < nextId + 1 && Stamps(r)[i].1 <= clock {
      BelowAt(rows, nextId, clock, i);
    }
  }

  lemma AppendValid(rows: seq<CoffeeRow>, n: CoffeeRow, clock: nat)
    requires ValidCoffees(rows, n.id, clock) && n.createdAt <= clock
    requires n.uid.Some? ==> forall x :: x in rows && x.userId == n.userId ==> x.uid != n.uid
    ensures ValidCoffees(rows + [n], n.id + 1, clock)
  {
    var r := rows + [n];
    var k := UidKeys(r);
    forall i, j | 0 <= i < j < |k| && k[i].0 == k[j].0 && k[i].1.Some? ensures k[i].1 != k[j].1 {
      assert k[i] == (r[i].userId, r[i].uid) && k[j] == (r[j].userId, r[j].uid);
      if j == |rows| {
        assert r[i] == rows[i] && rows[i] in rows;
      } else {
        UidsAt(rows, i, j);
      }
    }
    forall i, j | 0 <= i < j < |r| ensures r[i].id < r[j].id {
      if j == |rows| {
        BelowAt(rows, n.id, clock, i);
      } else {
        IncreasingAt(rows, i, j);
      }
    }
    forall i | 0 <= i < |r| ensures r[i].id < n.id + 1 && r[i].createdAt <= clock {
      if i < |rows| {
        BelowAt(rows, n.id, clock, i);
      }
    }
  }

  /** After an upsert the user has a row with that uid and every such row holds the new
      document. */
  lemma UpsertHoldsLatest(rows: seq<CoffeeRow>, userId: nat, uid: string, data: Value, newId: nat, t: nat)
    requires Increasing(rows) && UidsUnique(rows)
    ensures UidsOf(UpsertRows(rows, userId, uid, data, newId, t), userId) == UidsOf(rows, userId) + {uid}
    ensures forall x :: x in UpsertRows(rows, userId, uid, data, newId, t) && x.userId == userId && x.uid == Some(uid) ==>
      x.data == data
  {
    var r := UpsertRows(rows, userId, uid, data, newId, t);
    match FindUid(rows, userId, uid)
    case Some(k) =>
      forall x | x in r && x.userId == userId && x.uid == Some(uid) ensures x.data == data {
        var i :| 0 <= i < |r| && r[i] == x;
        if i != k {
          UidsAt(rows, i, k);
        }
      }
      assert UidsOf(r, userId) == UidsOf(rows, userId) + {uid} by {
        forall v | v in UidsOf(rows, userId) ensures v in UidsOf(r, userId) {
          var x :| x in rows && x.userId == userId && x.uid == Some(v);
          var i :| 0 <= i < |rows| && rows[i] == x;
          assert r[i] in r && r[i].uid == x.uid && r[i].userId == userId;
        }
        assert r[k] in r;
      }
    case None =>
      FindUidNone(rows, userId, uid);
  }

  /** An upsert for one user leaves every other user's rows as they were. */
  lemma UpsertKeepsOthers(rows: seq<CoffeeRow>, userId: nat, uid: string, data: Value, newId: nat, t: nat, other: nat)
    requires other != userId
    ensures OfUser(UpsertRows(rows, userId, uid, data, newId, t), other) == OfUser(rows, other)
  {
    match FindUid(rows, userId, uid)
    case Some(k) => UpdateOthers(rows, k, data, t, other);
    case None => AppendOthers(rows, CoffeeRow(newId, userId, Some(uid), data, t), other);
  }

  lemma {:induction false} UpdateOthers(rows: seq<CoffeeRow>, k: nat, data: Value, t: nat, other: nat)
    requires k < |rows| && rows[k].userId != other
    ensures OfUser(rows[k := rows[k].(data := data, createdAt := t)], other) == OfUser(rows, other)
    decreases |rows|
  {
    var r := rows[k := rows[k].(data := data, createdAt := t)];
    if k == 0 {
      assert r[1..] == rows[1..];
    } else {
      assert r[1..] == rows[1..][k - 1 := rows[k].(data := data, createdAt := t)];
      UpdateOthers(rows[1..], k - 1, data, t, other);
    }
  }

  lemma {:induction false} AppendOthers(rows: seq<CoffeeRow>, x: CoffeeRow, other: nat)
    requires x.userId != other
    ensures OfUser(rows + [x], other) == OfUser(rows, other)
    decreases |rows|
  {
    if rows == [] {
      assert OfUser([x], other) == OfUser([x][1..], other);
    } else {
      assert (rows + [x])[1..] == rows[1..] + [x];
      AppendOthers(rows[1..], x, other);
    }
  }

  /** `replaceUserCoffees(userId, keep)` leaves the user exactly the uids of `keep` it had,
      and leaves every other user's rows as they were. */
  lemma ReplaceKeepsListed(rows: seq<CoffeeRow>, userId: nat, keep: seq<string>)
    ensures UidsOf(KeepUids(rows, userId, keep), userId) == UidsOf(rows, userId) * set v | v in keep
    ensures forall other :: other != userId ==> OfUser(KeepUids(rows, userId, keep), other) == OfUser(rows, other)
  {
    forall other | other != userId ensures OfUser(KeepUids(rows, userId, keep), other) == OfUser(rows, other) {
      KeepOthers(rows, userId, keep, other);
    }
  }

  lemma {:induction false} KeepOthers(rows: seq<CoffeeRow>, userId: nat, keep: seq<string>, other: nat)
    requires other != userId
    ensures OfUser(KeepUids(rows, userId, keep), other) == OfUser(rows, other)
    decreases |rows|
  {
    if rows != [] {
      KeepOthers(rows[1..], userId, keep, other);
    }
  }

  /** None of the `count` statements from number `from` on is the failing one. */
  predicate Spared(failAt: Option<nat>, from: nat, count: nat) {
    failAt.None? || failAt.value < from || failAt.value >= from + count
  }

  /** A statement that does not fail extends a run of statements that do not. */
  lemma SparedStep(failAt: Option<nat>, from: nat, count: nat)
    ensures Spared(failAt, from, count) && failAt != Some(from + count) <==> Spared(failAt, from, count + 1)
  {
  }

  /** The rows `saveCoffee(userId, docs[i])` appends for each document in turn at time `t`,
      taking row ids from `n` on; none of them has a uid. */
  function Inserted(userId: nat, docs: seq<Value>, n: nat, t: nat): seq<CoffeeRow> {
    seq(|docs|, i requires 0 <= i < |docs| => CoffeeRow(n + i, userId, None, docs[i], t))
  }

  /** Inserting one more document appends one more row. */
  lemma InsertedStep(userId: nat, docs: seq<Value>, n: nat, t: nat, i: nat)
    requires i < |docs|
    ensures Inserted(userId, docs[..i + 1], n, t) == Inserted(userId, docs[..i], n, t) + [CoffeeRow(n + i, userId, None, docs[i], t)]
  {
  }

  /** The rows of one user in `a + b`: theirs in `a`, then theirs in `b`. */
  lemma {:induction false} OfUserConcat(a: seq<CoffeeRow>, b: seq<CoffeeRow>, userId: nat)
    ensures OfUser(a + b, userId) == OfUser(a, userId) + OfUser(b, userId)
    decreases |a|
  {
    if a == [] {
      assert a + b == b;
    } else {
      assert (a + b)[1..] == a[1..] + b;
      OfUserConcat(a[1..], b, userId);
    }
  }

  /** Every inserted row belongs to `userId`, so the inserted rows are all the user's and none
      of anyone else's. */
  lemma {:induction false} OfInserted(userId: nat, docs: seq<Value>, n: nat, t: nat, other: nat)
    requires other != userId
    ensures OfUser(Inserted(userId, docs, n, t), userId) == Inserted(userId, docs, n, t)
    ensures OfUser(Inserted(userId, docs, n, t), other) == []
    decreases |docs|
  {
    var r := Inserted(userId, docs, n, t);
    if docs != [] {
      assert r[1..] == Inserted(userId, docs[1..], n + 1, t);
      OfInserted(userId, docs[1..], n + 1, t, other);
    }
  }

  /**
   * Deleting a user's coffees and inserting `docs` for them leaves that user exactly the
   * inserted rows, in insertion order and without uids, and every other user the rows they had.
   */
  lemma RewriteRows(rows: seq<CoffeeRow>, userId: nat, docs: seq<Value>, n: nat, t: nat, other: nat)
    requires other != userId
    ensures OfUser(WithoutUser(rows, userId) + Inserted(userId, docs, n, t), userId) == Inserted(userId, docs, n, t)
    ensures forall x :: x in OfUser(WithoutUser(rows, userId) + Inserted(userId, docs, n, t), userId) ==> x.uid.None?
    ensures OfUser(WithoutUser(rows, userId) + Inserted(userId, docs, n, t), other) == OfUser(rows, other)
  {
    var kept, added := WithoutUser(rows, userId), Inserted(userId, docs, n, t);
    OfUserConcat(kept, added, userId);
    OfUserConcat(kept, added, other);
    DeleteOnlyThatUser(rows, userId, other);
    OfInserted(userId, docs, n, t, other);
  }

  // ---------------------------------------------------------------------------
  // The connection and the tables
  // ---------------------------------------------------------------------------

  /**
   * The module state of db/database.js (`db`, `dbType`) together with the database it is
   * connected to. `handle` is `db`: present between a successful `initDatabase` and
   * `closeDatabase`, and naming the backend the connection talks to.
   *
   * Storage failures come from the environment: `failAt` names the statement (counted by
   * `calls` over the life of the store) that fails; that statement changes nothing.
   */
  class Db {
    var handle: Option<Backend>
    var dbType: Option<Backend>
    var users: seq<User>
    var coffees: seq<CoffeeRow>
    var snapshot: Option<Tables>
    var nextUserId: nat
    var nextCoffeeId: nat
    var clock: nat
    var calls: nat
    var failAt: Option<nat>

    ghost predicate Valid()
      reads this
    {
      nextUserId >= 1 && nextCoffeeId >= 1
      && ValidUsers(users, nextUserId, clock) && ValidCoffees(coffees, nextCoffeeId, clock)
      && (snapshot.Some? ==> ValidTables(snapshot.value, nextUserId, nextCoffeeId, clock))
    }

    /** The statement about to run is the one the environment makes fail. */
    predicate Fails()
      reads this
    {
      failAt == Some(calls)
    }

    /** `getDatabase()`: the connection, or the "not initialized" error. */
    function GetDatabase(): (r: Result<Backend, DbError>)
      reads this
      ensures r.Ok? <==> handle.Some?
      ensures r.Ok? ==> r.value == handle.value
    {
      if handle.None? then Err(NotInitialized) else Ok(handle.value)
    }

    /** `getDatabaseType()`. */
    function GetDatabaseType(): Option<Backend>
      reads this
    {
      dbType
    }

    /** One statement ran: the connection, the open transaction and the fault plan are as they were. */
    twostate predicate Ran()
      reads this
    {
      handle == old(handle) && dbType == old(dbType) && snapshot == old(snapshot) && failAt == old(failAt)
      && calls == old(calls) + 1
    }

    /** Both tables as rows. */
    function Contents(): Tables
      reads this
    {
      Tables(users, coffees)
    }

    /** The tables, the id sequences and the clock are as they were. */
    twostate predicate StoreKept()
      reads this
    {
      users == old(users) && coffees == old(coffees) && nextUserId == old(nextUserId) && nextCoffeeId == old(nextCoffeeId) && clock == old(clock)
    }

    /** A store that has never been connected and holds no rows; `failAt` is the environment's fault plan. */
    constructor (failAt: Option<nat>)
      ensures Valid() && handle.None? && dbType.None? && snapshot.None?
      ensures users == [] && coffees == [] && calls == 0 && this.failAt == failAt
    {
      handle := None;
      dbType := None;
      users := [];
      coffees := [];
      snapshot := None;
      nextUserId := 1;
      nextCoffeeId := 1;
      clock := 0;
      calls := 0;
      this.failAt := failAt;
    }

    /**
     * `initDatabase()`: PostgreSQL in production with a database URL, SQLite otherwise.
     * `dbType` is set before the PostgreSQL connection test, so a failed test leaves the
     * type set and the connection as it was. The tables persist across connections.
     */
    method InitDatabase(production: bool, hasDatabaseUrl: bool, reachable: bool) returns (r: Result<Backend, DbError>)
      requires Valid()
      modifies this
      ensures Valid() && StoreKept()
      ensures snapshot == old(snapshot) && calls == old(calls) && failAt == old(failAt)
      ensures production && hasDatabaseUrl ==> dbType == Some(PostgreSql)
      ensures production && hasDatabaseUrl && !reachable ==> r == Err(ConnectionFailed) && handle == old(handle)
      ensures production && hasDatabaseUrl && reachable ==> r == Ok(PostgreSql) && handle == Some(PostgreSql)
      ensures !(production && hasDatabaseUrl) ==> r == Ok(Sqlite) && handle == Some(Sqlite) && dbType == Some(Sqlite)
    {
      if production && hasDatabaseUrl {
        dbType := Some(PostgreSql);
        if !reachable {
          return Err(ConnectionFailed);
        }
        handle := Some(PostgreSql);
        r := Ok(PostgreSql);
      } else {
        dbType := Some(Sqlite);
        handle := Some(Sqlite);
        r := Ok(Sqlite);
      }
    }

    /** `closeDatabase()`: drops the connection and the type; an open transaction is lost. */
    method CloseDatabase()
      requires Valid()
      modifies this
      ensures Valid() && handle.None? && dbType.None? && snapshot.None?
      ensures GetDatabase() == Err(NotInitialized)
      ensures Contents() == if old(snapshot).Some? then old(snapshot).value else old(Contents())
      ensures nextUserId == old(nextUserId) && nextCoffeeId == old(nextCoffeeId) && clock == old(clock)
      ensures calls == old(calls) && failAt == old(failAt)
    {
      if snapshot.Some? {
        users, coffees := snapshot.value.users, snapshot.value.coffees;
      }
      snapshot := None;
      handle := None;
      dbType := None;
    }

    /** Time passes between two requests: `CURRENT_TIMESTAMP` reads a later instant and nothing
        else changes. */
    method Tick()
      requires Valid()
      modifies this
      ensures Valid() && clock > old(clock)
      ensures users == old(users) && coffees == old(coffees) && snapshot == old(snapshot)
      ensures nextUserId == old(nextUserId) && nextCoffeeId == old(nextCoffeeId)
      ensures handle == old(handle) && dbType == old(dbType) && calls == old(calls) && failAt == old(failAt)
    {
      clock := clock + 1;
    }

    /**
     * `getUserByToken(token, deviceId)`: the row with that token; when `deviceId` is given and
     * non-empty (truthy), the row must also be bound to that device.
     */
    method GetUserByToken(token: string, deviceId: Option<string>) returns (r: Result<Option<UserRow>, DbError>)
      requires Valid()
      modifies this
      ensures Valid() && StoreKept()
      ensures old(handle).None? ==> r == Err(NotInitialized) && unchanged(this)
      ensures old(handle).Some? ==> Ran()
      ensures old(handle).Some? && old(Fails()) ==> r == Err(IoFailure)
      ensures old(handle).Some? && !old(Fails()) ==>
        r == Ok(LookupToken(users, token, if deviceId.Some? && deviceId.value != "" then deviceId else None))
    {
      if handle.None? {
        return Err(NotInitialized);
      }
      var fails := Fails();
      calls := calls + 1;
      if fails {
        return Err(IoFailure);
      }
      var filter := if deviceId.Some? && deviceId.value != "" then deviceId else None;
      r := Ok(LookupToken(users, token, filter));
    }

    /**
     * `createUser(username, token, deviceId, deviceInfo)`: inserts a row stamped with the
     * current time as `last_login_at` and `created_at` and returns its id. The UNIQUE
     * columns are `username` and `token` on both backends, and `device_id` on SQLite.
     */
    method CreateUser(username: string, token: string, deviceId: Option<string>, deviceInfo: Option<string>)
      returns (r: Result<nat, DbError>)
      requires Valid()
      modifies this
      ensures Valid()
      ensures old(handle).None? ==> r == Err(NotInitialized) && unchanged(this)
      ensures old(handle).Some? ==> Ran()
      ensures old(handle).Some? && old(Fails()) ==> r == Err(IoFailure) && StoreKept()
      ensures old(handle).Some? && !old(Fails()) && old(CreateConflicts(username, token, deviceId)) ==>
        r == Err(UniqueViolation) && StoreKept()
      ensures old(handle).Some? && !old(Fails()) && !old(CreateConflicts(username, token, deviceId)) ==>
        r == Ok(old(nextUserId)) && r.value > 0
        && users == old(users) + [User(old(nextUserId), username, token, deviceId, deviceInfo, Some(old(clock)), old(clock))]
        && coffees == old(coffees)
        && nextUserId == old(nextUserId) + 1 && clock == old(clock) && nextCoffeeId == old(nextCoffeeId)
    {
      if handle.None? {
        return Err(NotInitialized);
      }
      var fails := Fails();
      calls := calls + 1;
      if fails {
        return Err(IoFailure);
      }
      if CreateConflicts(username, token, deviceId) {
        return Err(UniqueViolation);
      }
      var u := User(nextUserId, username, token, deviceId, deviceInfo, Some(clock), clock);
      AppendUnique(users, u);
      users := users + [u];
      r := Ok(nextUserId);
      nextUserId := nextUserId + 1;
    }

    /** A new user row would duplicate a UNIQUE column of the connected schema. */
    predicate CreateConflicts(username: string, token: string, deviceId: Option<string>)
      reads this
    {
      (exists u :: u in users && (u.username == username || u.token == token))
      || (handle == Some(Sqlite) && deviceId.Some? && DeviceTaken(users, deviceId.value))
    }

    /** `updateLastLogin(userId)`. */
    method UpdateLastLogin(userId: nat) returns (r: Result<(), DbError>)
      requires Valid()
      modifies this
      ensures Valid()
      ensures old(handle).None? ==> r == Err(NotInitialized) && unchanged(this)
      ensures old(handle).Some? ==> Ran()
      ensures old(handle).Some? && old(Fails()) ==> r == Err(IoFailure) && StoreKept()
      ensures old(handle).Some? && !old(Fails()) ==>
        r == Ok(()) && users == WithLastLogin(old(users), userId, old(clock)) && coffees == old(coffees)
        && clock == old(clock) && nextUserId == old(nextUserId) && nextCoffeeId == old(nextCoffeeId)
    {
      if handle.None? {
        return Err(NotInitialized);
      }
      var fails := Fails();
      calls := calls + 1;
      if fails {
        return Err(IoFailure);
      }
      users := WithLastLogin(users, userId, clock);
      r := Ok(());
      assert Keys(users) == Keys(old(users));
    }

    /** `deviceExists(deviceId)`. */
    method DeviceExists(deviceId: string) returns (r: Result<bool, DbError>)
      requires Valid()
      modifies this
      ensures Valid() && StoreKept()
      ensures old(handle).None? ==> r == Err(NotInitialized) && unchanged(this)
      ensures old(handle).Some? ==> Ran()
      ensures old(handle).Some? && old(Fails()) ==> r == Err(IoFailure)
      ensures old(handle).Some? && !old(Fails()) ==> r == Ok(DeviceTaken(users, deviceId))
    {
      if handle.None? {
        return Err(NotInitialized);
      }
      var fails := Fails();
      calls := calls + 1;
      if fails {
        return Err(IoFailure);
      }
      r := Ok(DeviceTaken(users, deviceId));
    }

    /**
     * `bindDevice(userId, deviceId, deviceInfo)`: sets the device, its description and the
     * login time of the row with that id. On SQLite, a device another row holds violates
     * the UNIQUE `device_id` column.
     */
    method BindDevice(userId: nat, deviceId: string, deviceInfo: string) returns (r: Result<(), DbError>)
      requires Valid()
      modifies this
      ensures Valid()
      ensures old(handle).None? ==> r == Err(NotInitialized) && unchanged(this)
      ensures old(handle).Some? ==> Ran()
      ensures old(handle).Some? && old(Fails()) ==> r == Err(IoFailure) && StoreKept()
      ensures old(handle).Some? && !old(Fails()) && old(BindConflicts(userId, deviceId)) ==>
        r == Err(UniqueViolation) && StoreKept()
      ensures old(handle).Some? && !old(Fails()) && !old(BindConflicts(userId, deviceId)) ==>
        r == Ok(()) && users == WithDevice(old(users), userId, deviceId, deviceInfo, old(clock)) && coffees == old(coffees)
        && clock == old(clock) && nextUserId == old(nextUserId) && nextCoffeeId == old(nextCoffeeId)
    {
      if handle.None? {
        return Err(NotInitialized);
      }
      var fails := Fails();
      calls := calls + 1;
      if fails {
        return Err(IoFailure);
      }
      if BindConflicts(userId, deviceId) {
        return Err(UniqueViolation);
      }
      users := WithDevice(users, userId, deviceId, deviceInfo, clock);
      r := Ok(());
      assert Keys(users) == Keys(old(users));
    }

    /** Binding would give a second row the same `device_id` on SQLite. */
    predicate BindConflicts(userId: nat, deviceId: string)
      reads this
    {
      BindConflict(handle, users, userId, deviceId)
    }

    /** `getUserCount()`. */
    method GetUserCount() returns (r: Result<nat, DbError>)
      requires Valid()
      modifies this
      ensures Valid() && StoreKept()
      ensures old(handle).None? ==> r == Err(NotInitialized) && unchanged(this)
      ensures old(handle).Some? ==> Ran()
      ensures old(handle).Some? && old(Fails()) ==> r == Err(IoFailure)
      ensures old(handle).Some? && !old(Fails()) ==> r == Ok(|users|)
    {
      if handle.None? {
        return Err(NotInitialized);
      }
      var fails := Fails();
      calls := calls + 1;
      if fails {
        return Err(IoFailure);
      }
      r := Ok(|users|);
    }

    /** `usernameExists(username)`: compared under `LOWER` on both sides. */
    method UsernameExists(username: string) returns (r: Result<bool, DbError>)
      requires Valid()
      modifies this
      ensures Valid() && StoreKept()
      ensures old(handle).None? ==> r == Err(NotInitialized) && unchanged(this)
      ensures old(handle).Some? ==> Ran()
      ensures old(handle).Some? && old(Fails()) ==> r == Err(IoFailure)
      ensures old(handle).Some? && !old(Fails()) ==> r == Ok(NameTaken(users, username))
    {
      if handle.None? {
        return Err(NotInitialized);
      }
      var fails := Fails();
      calls := calls + 1;
      if fails {
        return Err(IoFailure);
      }
      r := Ok(NameTaken(users, username));
    }

    /** `getUserCoffees(userId)`: that user's rows, `ORDER BY created_at DESC`. */
    method GetUserCoffees(userId: nat) returns (r: Result<seq<CoffeeRow>, DbError>)
      requires Valid()
      modifies this
      ensures Valid() && StoreKept()
      ensures old(handle).None? ==> r == Err(NotInitialized) && unchanged(this)
      ensures old(handle).Some? ==> Ran()
      ensures old(handle).Some? && old(Fails()) ==> r == Err(IoFailure)
      ensures old(handle).Some? && !old(Fails()) ==> r.Ok? && NewestOrder(r.value, coffees, userId)
    {
      if handle.None? {
        return Err(NotInitialized);
      }
      var fails := Fails();
      calls := calls + 1;
      if fails {
        return Err(IoFailure);
      }
      r := Ok(SortNewest(OfUser(coffees, userId)));
    }

    /** A coffee row for `userId` breaks the foreign key of the connected schema. */
    predicate ForeignKeyFails(userId: nat)
      reads this
    {
      ForeignKeyRejects(handle, users, userId)
    }

    /** `saveCoffee(userId, data)` as db/database.js defines it: always inserts a new row. */
    method SaveCoffee(userId: nat, data: Value) returns (r: Result<nat, DbError>)
      requires Valid()
      modifies this
      ensures Valid()
      ensures old(handle).None? ==> r == Err(NotInitialized) && unchanged(this)
      ensures old(handle).Some? ==> Ran()
      ensures old(handle).Some? && old(Fails()) ==> r == Err(IoFailure) && StoreKept()
      ensures old(handle).Some? && !old(Fails()) && old(ForeignKeyFails(userId)) ==>
        r == Err(ForeignKeyViolation) && StoreKept()
      ensures old(handle).Some? && !old(Fails()) && !old(ForeignKeyFails(userId)) ==>
        r == Ok(old(nextCoffeeId))
        && coffees == old(coffees) + [CoffeeRow(old(nextCoffeeId), userId, None, data, old(clock))] && users == old(users)
        && nextCoffeeId == old(nextCoffeeId) + 1 && clock == old(clock) && nextUserId == old(nextUserId)
    {
      if handle.None? {
        return Err(NotInitialized);
      }
      var fails := Fails();
      calls := calls + 1;
      if fails {
        return Err(IoFailure);
      }
      if ForeignKeyFails(userId) {
        return Err(ForeignKeyViolation);
      }
      var row := CoffeeRow(nextCoffeeId, userId, None, data, clock);
      AppendValid(coffees, row, clock);
      coffees := coffees + [row];
      r := Ok(nextCoffeeId);
      nextCoffeeId := nextCoffeeId + 1;
    }

    /** `deleteUserCoffees(userId)`. */
    method DeleteUserCoffees(userId: nat) returns (r: Result<(), DbError>)
      requires Valid()
      modifies this
      ensures Valid()
      ensures old(handle).None? ==> r == Err(NotInitialized) && unchanged(this)
      ensures old(handle).Some? ==> Ran()
      ensures old(handle).Some? && old(Fails()) ==> r == Err(IoFailure) && StoreKept()
      ensures old(handle).Some? && !old(Fails()) ==>
        r == Ok(()) && coffees == WithoutUser(old(coffees), userId) && users == old(users)
        && nextUserId == old(nextUserId) && nextCoffeeId == old(nextCoffeeId) && clock == old(clock)
    {
      if handle.None? {
        return Err(NotInitialized);
      }
      var fails := Fails();
      calls := calls + 1;
      if fails {
        return Err(IoFailure);
      }
      SubsetValid(coffees, WithoutUser(coffees, userId), nextCoffeeId, clock);
      coffees := WithoutUser(coffees, userId);
      r := Ok(());
    }

    /**
     * The uid-keyed `saveCoffee(userId, uid, data)` the coffee routes and the tests call: the
     * user's row with that uid takes the new document, otherwise a row is inserted.
     */
    method UpsertCoffee(userId: nat, uid: string, data: Value) returns (r: Result<nat, DbError>)
      requires Valid()
      modifies this
      ensures Valid()
      ensures old(handle).None? ==> r == Err(NotInitialized) && unchanged(this)
      ensures old(handle).Some? ==> Ran()
      ensures old(handle).Some? && old(Fails()) ==> r == Err(IoFailure) && StoreKept()
      ensures old(handle).Some? && !old(Fails()) && old(ForeignKeyFails(userId)) ==>
        r == Err(ForeignKeyViolation) && StoreKept()
      ensures old(handle).Some? && !old(Fails()) && !old(ForeignKeyFails(userId)) ==>
        r == Ok(UpsertId(old(coffees), userId, uid, old(nextCoffeeId)))
        && coffees == UpsertRows(old(coffees), userId, uid, data, old(nextCoffeeId), old(clock)) && users == old(users)
        && nextCoffeeId == old(nextCoffeeId) + 1 && clock == old(clock) && nextUserId == old(nextUserId)
    {
      if handle.None? {
        return Err(NotInitialized);
      }
      var fails := Fails();
      calls := calls + 1;
      if fails {
        return Err(IoFailure);
      }
      if ForeignKeyFails(userId) {
        return Err(ForeignKeyViolation);
      }
      UpsertValid(coffees, userId, uid, data, nextCoffeeId, clock);
      r := Ok(UpsertId(coffees, userId, uid, nextCoffeeId));
      coffees := UpsertRows(coffees, userId, uid, data, nextCoffeeId, clock);
      nextCoffeeId := nextCoffeeId + 1;
    }

    /** `replaceUserCoffees(userId, keep)`: deletes the user's rows whose uid is not in `keep`. */
    method ReplaceUserCoffees(userId: nat, keep: seq<string>) returns (r: Result<(), DbError>)
      requires Valid()
      modifies this
      ensures Valid()
      ensures old(handle).None? ==> r == Err(NotInitialized) && unchanged(this)
      ensures old(handle).Some? ==> Ran()
      ensures old(handle).Some? && old(Fails()) ==> r == Err(IoFailure) && StoreKept()
      ensures old(handle).Some? && !old(Fails()) ==>
        r == Ok(()) && coffees == KeepUids(old(coffees), userId, keep) && users == old(users)
        && nextUserId == old(nextUserId) && nextCoffeeId == old(nextCoffeeId) && clock == old(clock)
    {
      if handle.None? {
        return Err(NotInitialized);
      }
      var fails := Fails();
      calls := calls + 1;
      if fails {
        return Err(IoFailure);
      }
      SubsetValid(coffees, KeepUids(coffees, userId, keep), nextCoffeeId, clock);
      coffees := KeepUids(coffees, userId, keep);
      r := Ok(());
    }

    /** `beginTransaction()`: remembers the tables as they are now. Transactions do not nest;
        a failing `BEGIN` opens none. */
    method BeginTransaction() returns (r: Result<(), DbError>)
      requires Valid()
      modifies this
      ensures Valid() && StoreKept() && handle == old(handle) && dbType == old(dbType) && failAt == old(failAt)
      ensures old(handle).None? ==> r == Err(NotInitialized) && unchanged(this)
      ensures old(handle).Some? ==> calls == old(calls) + 1
      ensures old(handle).Some? && old(Fails()) ==> r == Err(IoFailure) && snapshot == old(snapshot)
      ensures old(handle).Some? && !old(Fails()) && old(snapshot).Some? ==> r == Err(TransactionOpen) && snapshot == old(snapshot)
      ensures old(handle).Some? && !old(Fails()) && old(snapshot).None? ==> r == Ok(()) && snapshot == Some(Contents())
    {
      if handle.None? {
        return Err(NotInitialized);
      }
      var fails := Fails();
      calls := calls + 1;
      if fails {
        return Err(IoFailure);
      }
      if snapshot.Some? {
        return Err(TransactionOpen);
      }
      snapshot := Some(Tables(users, coffees));
      r := Ok(());
    }

    /** `commit()`: keeps the changes made since `beginTransaction`. A failing `COMMIT` leaves
        the transaction open. */
    method Commit() returns (r: Result<(), DbError>)
      requires Valid()
      modifies this
      ensures Valid() && StoreKept() && handle == old(handle) && dbType == old(dbType) && failAt == old(failAt)
      ensures old(handle).None? ==> r == Err(NotInitialized) && unchanged(this)
      ensures old(handle).Some? ==> calls == old(calls) + 1
      ensures old(handle).Some? && old(Fails()) ==> r == Err(IoFailure) && snapshot == old(snapshot)
      ensures old(handle).Some? && !old(Fails()) && old(snapshot).None? ==> r == Err(NoTransaction) && snapshot.None?
      ensures old(handle).Some? && !old(Fails()) && old(snapshot).Some? ==> r == Ok(()) && snapshot.None?
    {
      if handle.None? {
        return Err(NotInitialized);
      }
      var fails := Fails();
      calls := calls + 1;
      if fails {
        return Err(IoFailure);
      }
      if snapshot.None? {
        return Err(NoTransaction);
      }
      snapshot := None;
      r := Ok(());
    }

    /** `rollback()`: puts the tables back as `beginTransaction` found them. A failing
        `ROLLBACK` changes nothing. */
    method Rollback() returns (r: Result<(), DbError>)
      requires Valid()
      modifies this
      ensures Valid() && handle == old(handle) && dbType == old(dbType) && failAt == old(failAt)
      ensures nextUserId == old(nextUserId) && nextCoffeeId == old(nextCoffeeId) && clock == old(clock)
      ensures old(handle).None? ==> r == Err(NotInitialized) && unchanged(this)
      ensures old(handle).Some? ==> calls == old(calls) + 1
      ensures old(handle).Some? && old(Fails()) ==>
        r == Err(IoFailure) && users == old(users) && coffees == old(coffees) && snapshot == old(snapshot)
      ensures old(handle).Some? && !old(Fails()) && old(snapshot).None? ==>
        r == Err(NoTransaction) && users == old(users) && coffees == old(coffees) && snapshot.None?
      ensures old(handle).Some? && !old(Fails()) && old(snapshot).Some? ==>
        r == Ok(()) && Contents() == old(snapshot).value && snapshot.None?
    {
      if handle.None? {
        return Err(NotInitialized);
      }
      var fails := Fails();
      calls := calls + 1;
      if fails {
        return Err(IoFailure);
      }
      if snapshot.None? {
        return Err(NoTransaction);
      }
      users, coffees := snapshot.value.users, snapshot.value.coffees;
      snapshot := None;
      r := Ok(());
    }
  }

  /** The number of inserts that succeed when the inserts start at statement number `from`:
      none when the foreign key rejects the user, otherwise those before the failing one. */
  function InsertsBefore(failAt: Option<nat>, from: nat, foreignKeyFails: bool, count: nat): (k: nat)
    ensures k <= count
  {
    if foreignKeyFails || count == 0 then 0
    else if failAt.Some? && from <= failAt.value < from + count then failAt.value - from
    else count
  }

  /** `saveCoffee(userId, d)` for every document `d` in order, stopping at the first statement
      that fails; the rows inserted before it stay. */
  method InsertAll(db: Db, userId: nat, docs: seq<Value>) returns (ok: bool)
    requires db.Valid() && db.handle.Some?
    modifies db
    ensures db.Valid() && db.handle == old(db.handle) && db.snapshot == old(db.snapshot) && db.failAt == old(db.failAt)
    ensures db.users == old(db.users) && db.clock == old(db.clock)
    ensures ok <==> Spared(old(db.failAt), old(db.calls), |docs|) && (docs != [] ==> !ForeignKeyRejects(old(db.handle), old(db.users), userId))
    ensures ok ==> db.calls == old(db.calls) + |docs|
    ensures !ok && docs != [] && ForeignKeyRejects(old(db.handle), old(db.users), userId) ==> db.calls == old(db.calls) + 1
    ensures !ok && !(docs != [] && ForeignKeyRejects(old(db.handle), old(db.users), userId)) ==> db.failAt == Some(db.calls - 1)
    ensures db.coffees == old(db.coffees)
      + Inserted(userId, docs[..InsertsBefore(old(db.failAt), old(db.calls), ForeignKeyRejects(old(db.handle), old(db.users), userId), |docs|)],
                 old(db.nextCoffeeId), old(db.clock))
  {
    ghost var c0, fk := db.calls, ForeignKeyRejects(db.handle, db.users, userId);
    ghost var base, n0, t0 := db.coffees, db.nextCoffeeId, db.clock;
    var i := 0;
    while i < |docs|
      invariant 0 <= i <= |docs|
      invariant db.Valid() && db.handle == old(db.handle) && db.snapshot == old(db.snapshot) && db.failAt == old(db.failAt)
      invariant db.users == old(db.users)
      invariant db.calls == c0 + i && db.nextCoffeeId == n0 + i && db.clock == t0
      invariant Spared(db.failAt, c0, i) && (i > 0 ==> !fk)
      invariant db.coffees == base + Inserted(userId, docs[..i], n0, t0)
    {
      var saved := db.SaveCoffee(userId, docs[i]);
      if saved.Err? {
        assert InsertsBefore(db.failAt, c0, fk, |docs|) == i;
        return false;
      }
      SparedStep(db.failAt, c0, i);
      InsertedStep(userId, docs, n0, t0, i);
      i := i + 1;
    }
    assert InsertsBefore(db.failAt, c0, fk, |docs|) == |docs|;
    assert docs[..i] == docs;
    ok := true;
  }

  /** A run of statements is spared when its first one is and the rest are. */
  lemma SparedFirst(failAt: Option<nat>, from: nat, count: nat)
    ensures Spared(failAt, from, count + 1) <==> failAt != Some(from) && Spared(failAt, from + 1, count)
  {
  }
}
