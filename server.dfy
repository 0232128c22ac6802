/**
 * The handlers server.js defines inline; it mounts none of the routers in routes/. They are
 * the tester sign-up `POST /api/auth/register` with its cap of ten users, the query-token
 * `GET /api/auth/validate`, the whole-list coffee sync `GET /api/coffees` and
 * `POST /api/coffees`, and the CORS origin check that runs before every route.
 *
 * These handlers know nothing of devices: the token alone identifies the user. The sync
 * deletes the user's coffee rows and inserts the posted list one row at a time, with no
 * transaction around the two. `uuidv4()` is a parameter of the sign-up.
 */
module LegacyServer {
  import opened Wrappers
  import opened Text
  import opened JsValue
  import opened Database
  import opened Auth
  import Coffees

  // ---------------------------------------------------------------------------
  // POST /api/auth/register
  // ---------------------------------------------------------------------------

  /** At most this many testers may sign up. */
  const TesterLimit: nat := 10

  const TooShort := Response(400, ErrorBody("Username must be at least 2 characters"))

  /** What `const { username } = req.body` and `!username || username.trim().length < 2` make
      of the body: a destructuring or `.trim()` that throws, a refused name, or the trimmed name. */
  datatype NameCheck = NameThrows | NameTooShort | Name(name: string)

  function CheckUsername(body: Value): (r: NameCheck)
    ensures r.Name? ==> |r.name| >= 2
  {
    if body.Undefined? || body.Null? then NameThrows
    else
      var username := Get(body, "username");
      if !Truthy(username) then NameTooShort
      else if !username.Str? then NameThrows
      else if |Trim(username.s)| < 2 then NameTooShort
      else Name(Trim(username.s))
  }

  /** A name is taken from the body exactly when `username` is a string of at least two
      characters once trimmed; numbers, arrays and objects throw. */
  lemma UsernameAccepted(body: Value)
    ensures CheckUsername(body).Name? <==>
      !body.Undefined? && !body.Null? && Get(body, "username").Str? && |Trim(Get(body, "username").s)| >= 2
    ensures CheckUsername(body).NameThrows? <==>
      body.Undefined? || body.Null? || (Truthy(Get(body, "username")) && !Get(body, "username").Str?)
    ensures CheckUsername(body).Name? ==> Trim(CheckUsername(body).name) == CheckUsername(body).name
  {
    var username := Get(body, "username");
    if username.Str? {
      TrimIdempotent(username.s);
    }
  }

  /** The 403 answer once the cap is reached. */
  function LimitBody(): Value {
    Obj(map["success" := Bool(false), "error" := Str("Tester limit reached (10/10)"), "spotsRemaining" := NumberOf(0)])
  }

  function SignedUpBody(id: nat, name: string, token: string, remaining: nat): Value {
    Obj(map[
      "success" := Bool(true),
      "user" := Obj(map["id" := NumberOf(id), "username" := Str(name), "token" := Str(token)]),
      "spotsRemaining" := NumberOf(remaining)])
  }

  /** Some row already holds `token` (the UNIQUE column `createUser` would break). */
  predicate TokenInUse(users: seq<User>, token: string) {
    exists u :: u in users && u.token == token
  }

  /** The answer and the `users` table a sign-up leaves. */
  datatype Signup = Signup(response: Response, users: seq<User>)

  /** The row `createUser(name, token)` adds: id `n`, no device, stamped `t`. */
  function Tester(n: nat, name: string, token: string, t: nat): User {
    User(n, name, token, None, None, Some(t), t)
  }

  /**
   * The sign-up of the trimmed `name` with the fresh `token` on a connected store whose
   * statement number `calls` is next: `getUserCount`, `usernameExists`, `createUser`,
   * `getUserCount` again, each of them possibly the failing statement.
   */
  function LegacySignup(users: seq<User>, failAt: Option<nat>, calls: nat, n: nat, t: nat, name: string, token: string): Signup {
    if failAt == Some(calls) then Signup(ServerError, users)
    else if |users| >= TesterLimit then Signup(Response(403, LimitBody()), users)
    else if failAt == Some(calls + 1) then Signup(ServerError, users)
    else if NameTaken(users, name) then Signup(Response(409, ErrorBody("Username already taken")), users)
    else if failAt == Some(calls + 2) || TokenInUse(users, token) then Signup(ServerError, users)
    else
      var after := users + [Tester(n, name, token, t)];
      if failAt == Some(calls + 3) then Signup(ServerError, after)
      else Signup(Response(200, SignedUpBody(n, name, token, TesterLimit - |after|)), after)
  }

  /**
   * A sign-up adds at most one row, only below the cap, and only for a name no row holds under
   * `LOWER`; so signing up one at a time never takes the table past ten users, and never
   * gives two users names that differ only in case.
   */
  lemma SignupKeepsCap(users: seq<User>, failAt: Option<nat>, calls: nat, n: nat, t: nat, name: string, token: string)
    ensures var r := LegacySignup(users, failAt, calls, n, t, name, token);
      r.users == users
      || (|users| < TesterLimit && !NameTaken(users, name) && !TokenInUse(users, token)
          && r.users == users + [Tester(n, name, token, t)])
    ensures |users| <= TesterLimit ==> |LegacySignup(users, failAt, calls, n, t, name, token).users| <= TesterLimit
  {
  }

  /**
   * The sign-up succeeds exactly when no statement fails, the cap is not reached, and the name
   * and the token are free; it then reports the new row and the places left, never negative.
   */
  lemma SignupSucceeds(users: seq<User>, failAt: Option<nat>, calls: nat, n: nat, t: nat, name: string, token: string)
    ensures var r := LegacySignup(users, failAt, calls, n, t, name, token);
      r.response.status == 200 <==>
        Spared(failAt, calls, 4) && |users| < TesterLimit && !NameTaken(users, name) && !TokenInUse(users, token)
    ensures var r := LegacySignup(users, failAt, calls, n, t, name, token);
      r.response.status == 200 ==>
        r.response.body == SignedUpBody(n, name, token, TesterLimit - 1 - |users|) && r.users[|users|].username == name
  {
  }

  /** The row is created before the second count, so a failing second count answers 500 with
      the tester already signed up. */
  lemma SignupFailsAfterCreate(users: seq<User>, failAt: Option<nat>, calls: nat, n: nat, t: nat, name: string, token: string)
    requires Spared(failAt, calls, 3) && failAt == Some(calls + 3)
    requires |users| < TesterLimit && !NameTaken(users, name) && !TokenInUse(users, token)
    ensures LegacySignup(users, failAt, calls, n, t, name, token) == Signup(ServerError, users + [Tester(n, name, token, t)])
  {
  }

  /** The store part of the sign-up, for a checked `name`. */
  method SignUp(db: Db, name: string, token: string) returns (res: Response)
    requires db.Valid() && db.handle.Some?
    modifies db
    ensures db.Valid() && db.handle == old(db.handle) && db.snapshot == old(db.snapshot) && db.coffees == old(db.coffees)
    ensures Signup(res, db.users)
      == LegacySignup(old(db.users), old(db.failAt), old(db.calls), old(db.nextUserId), old(db.clock), name, token)
  {
    var count := db.GetUserCount();
    if count.Err? {
      return ServerError;
    }
    if count.value >= TesterLimit {
      return Response(403, LimitBody());
    }
    var taken := db.UsernameExists(name);
    if taken.Err? {
      return ServerError;
    }
    if taken.value {
      return Response(409, ErrorBody("Username already taken"));
    }
    assert db.CreateConflicts(name, token, None) <==> TokenInUse(db.users, token);
    var created := db.CreateUser(name, token, None, None);
    if created.Err? {
      return ServerError;
    }
    var newCount := db.GetUserCount();
    if newCount.Err? {
      return ServerError;
    }
    res := Response(200, SignedUpBody(created.value, name, token, TesterLimit - newCount.value));
  }

  /** The answer to a body whose name is refused. */
  function NameRefusal(check: NameCheck): Response {
    if check.NameThrows? then ServerError else TooShort
  }

  /** The sign-up of a checked `name`: a store that is not connected throws before any query. */
  method RegisterName(db: Db, name: string, token: string) returns (res: Response)
    requires db.Valid()
    modifies db
    ensures db.Valid() && db.handle == old(db.handle) && db.snapshot == old(db.snapshot) && db.coffees == old(db.coffees)
    ensures old(db.handle).None? ==> res == ServerError && unchanged(db)
    ensures old(db.handle).Some? ==>
      Signup(res, db.users)
      == LegacySignup(old(db.users), old(db.failAt), old(db.calls), old(db.nextUserId), old(db.clock), name, token)
  {
    if db.handle.None? {
      return ServerError;
    }
    res := SignUp(db, name, token);
  }

  /** `POST /api/auth/register`; `token` is the `uuidv4()` the handler draws. */
  method LegacyRegister(db: Db, body: Value, token: string) returns (res: Response)
    requires db.Valid()
    modifies db
    ensures db.Valid() && db.handle == old(db.handle) && db.snapshot == old(db.snapshot) && db.coffees == old(db.coffees)
    ensures !CheckUsername(body).Name? ==> res == NameRefusal(CheckUsername(body)) && unchanged(db)
    ensures CheckUsername(body).Name? && old(db.handle).None? ==> res == ServerError && unchanged(db)
    ensures CheckUsername(body).Name? && old(db.handle).Some? ==>
      Signup(res, db.users)
      == LegacySignup(old(db.users), old(db.failAt), old(db.calls), old(db.nextUserId), old(db.clock), CheckUsername(body).name, token)
  {
    var check := CheckUsername(body);
    if !check.Name? {
      return NameRefusal(check);
    }
    res := RegisterName(db, check.name, token);
  }

  // ---------------------------------------------------------------------------
  // GET /api/auth/validate
  // ---------------------------------------------------------------------------

  /** The answer once `getUserByToken(token)` has returned. */
  function LegacyValidation(found: Option<UserRow>): Response {
    match found
    case None =>
      Response(401, Obj(map["success" := Bool(false), "valid" := Bool(false), "error" := Str("Invalid token")]))
    case Some(u) =>
      Response(200, Obj(map[
        "success" := Bool(true),
        "valid" := Bool(true),
        "user" := Obj(map["id" := NumberOf(u.id), "username" := Str(u.username), "createdAt" := Str(NatToString(u.createdAt))])]))
  }

  /**
   * A user's own token validates whatever device the user is bound to, and a token no row holds
   * does not: the legacy check never consults `device_id`.
   */
  lemma LegacyValidationIgnoresDevice(users: seq<User>, u: User)
    requires UsersUnique(users) && u in users
    ensures LegacyValidation(LookupToken(users, u.token, None)).status == 200
    ensures Get(LegacyValidation(LookupToken(users, u.token, None)).body, "user")
      == Obj(map["id" := NumberOf(u.id), "username" := Str(u.username), "createdAt" := Str(NatToString(u.createdAt))])
  {
    LookupTokenFinds(users, u.token, None);
    var x :| x in users && x.token == u.token && LookupToken(users, u.token, None).value == RowOf(x);
    var i :| 0 <= i < |users| && users[i] == x;
    var j :| 0 <= j < |users| && users[j] == u;
    if i != j {
      UniqueAt(users, i, j);
    }
  }

  /** A token that no row holds is refused with 401. */
  lemma LegacyValidationRefusesUnknown(users: seq<User>, token: string)
    requires !TokenInUse(users, token)
    ensures LegacyValidation(LookupToken(users, token, None)).status == 401
  {
    LookupTokenFinds(users, token, None);
  }

  /** `GET /api/auth/validate`: the token comes from the query string and from nowhere else. */
  method LegacyValidate(db: Db, query: Value) returns (res: Response)
    requires db.Valid()
    modifies db
    ensures db.Valid() && db.StoreKept() && db.handle == old(db.handle) && db.snapshot == old(db.snapshot)
    ensures !Truthy(Get(query, "token")) ==> res == Response(400, ErrorBody("Token required")) && unchanged(db)
    ensures Truthy(Get(query, "token")) && (old(db.handle).None? || old(db.Fails())) ==> res == ServerError
    ensures Truthy(Get(query, "token")) && old(db.handle).Some? && !old(db.Fails()) ==>
      res == LegacyValidation(LookupToken(old(db.users), Param(Get(query, "token")), None))
  {
    var token := Get(query, "token");
    if !Truthy(token) {
      return Response(400, ErrorBody("Token required"));
    }
    var found := db.GetUserByToken(Param(token), None);
    if found.Err? {
      return ServerError;
    }
    res := LegacyValidation(found.value);
  }

  // ---------------------------------------------------------------------------
  // GET /api/coffees
  // ---------------------------------------------------------------------------

  const Unauthorized := Response(401, ErrorBody("Unauthorized"))
  const InvalidToken := Response(401, ErrorBody("Invalid token"))

  /** `{ id: c.id, ...JSON.parse(c.data), savedAt: c.created_at }`. */
  function LegacyListed(row: CoffeeRow): Value {
    Obj((map["id" := NumberOf(row.id)] + SpreadOf(row.data))["savedAt" := Str(NatToString(row.createdAt))])
  }

  function LegacyListing(rows: seq<CoffeeRow>): (r: seq<Value>)
    ensures |r| == |rows| && forall i :: 0 <= i < |rows| ==> r[i] == LegacyListed(rows[i])
  {
    seq(|rows|, i requires 0 <= i < |rows| => LegacyListed(rows[i]))
  }

  /** A listed coffee is its stored document stamped with the row's time; the document's own
      `id` wins over the row id. */
  lemma LegacyListedDocument(row: CoffeeRow)
    ensures Get(LegacyListed(row), "savedAt") == Str(NatToString(row.createdAt))
    ensures forall f :: f in SpreadOf(row.data) && f != "savedAt" ==> Get(LegacyListed(row), f) == SpreadOf(row.data)[f]
    ensures "id" !in SpreadOf(row.data) ==> Get(LegacyListed(row), "id") == NumberOf(row.id)
  {
  }

  /** The answer once the user is known and `getUserCoffees` has returned. */
  function LegacyList(rows: seq<CoffeeRow>): Response {
    Response(200, Obj(map["success" := Bool(true), "coffees" := Arr(LegacyListing(rows))]))
  }

  /** `GET /api/coffees`: the token comes from the query string. */
  method LegacyListCoffees(db: Db, query: Value) returns (res: Response, ghost listing: seq<CoffeeRow>)
    requires db.Valid()
    modifies db
    ensures db.Valid() && db.StoreKept() && db.handle == old(db.handle) && db.snapshot == old(db.snapshot)
    ensures !Truthy(Get(query, "token")) ==> res == Unauthorized && unchanged(db)
    ensures Truthy(Get(query, "token")) && (old(db.handle).None? || old(db.Fails())) ==> res == ServerError
    ensures Truthy(Get(query, "token")) && old(db.handle).Some? && !old(db.Fails()) ==>
      var found := LookupToken(old(db.users), Param(Get(query, "token")), None);
      && (found.None? ==> res == InvalidToken)
      && (found.Some? && old(db.failAt) == Some(old(db.calls) + 1) ==> res == ServerError)
      && (found.Some? && old(db.failAt) != Some(old(db.calls) + 1) ==>
            NewestOrder(listing, old(db.coffees), found.value.id) && res == LegacyList(listing))
  {
    listing := [];
    var token := Get(query, "token");
    if !Truthy(token) {
      return Unauthorized, listing;
    }
    var found := db.GetUserByToken(Param(token), None);
    if found.Err? {
      return ServerError, listing;
    }
    if found.value.None? {
      return InvalidToken, listing;
    }
    var rows := db.GetUserCoffees(found.value.value.id);
    if rows.Err? {
      return ServerError, listing;
    }
    listing := rows.value;
    res := LegacyList(rows.value);
  }

  // ---------------------------------------------------------------------------
  // POST /api/coffees
  // ---------------------------------------------------------------------------

  /**
   * What the sync does for the user `userId` with the payload `coffees`, starting at statement
   * number `calls` with the delete: a failing delete changes nothing; a payload the loop
   * cannot iterate throws after the delete; otherwise the inserts run in order and stop at
   * the first one that fails, keeping those before it.
   */
  predicate LegacyReplaced(userId: nat, coffees: Value, failAt: Option<nat>, calls: nat,
                           before: seq<CoffeeRow>, n: nat, t: nat, res: Response, after: seq<CoffeeRow>) {
    var items := Coffees.Visited(coffees);
    if failAt == Some(calls) then res == ServerError && after == before
    else if items.None? then res == ServerError && after == WithoutUser(before, userId)
    else
      after == WithoutUser(before, userId) + Inserted(userId, items.value[..InsertsBefore(failAt, calls + 1, false, |items.value|)], n, t)
      && res == if Spared(failAt, calls + 1, |items.value|) then Response(200, Coffees.SavedBody(coffees)) else ServerError
  }

  /** The delete and the insert loop for a user the table holds. */
  method LegacyReplace(db: Db, userId: nat, coffees: Value) returns (res: Response)
    requires db.Valid() && db.handle.Some? && exists u :: u in db.users && u.id == userId
    modifies db
    ensures db.Valid() && db.handle == old(db.handle) && db.snapshot == old(db.snapshot) && db.users == old(db.users)
    ensures LegacyReplaced(userId, coffees, old(db.failAt), old(db.calls), old(db.coffees), old(db.nextCoffeeId), old(db.clock), res, db.coffees)
  {
    var deleted := db.DeleteUserCoffees(userId);
    if deleted.Err? {
      return ServerError;
    }
    var items := Coffees.Visited(coffees);
    if items.None? {
      // `for (const coffee of coffees)` throws on a value that is not iterable
      return ServerError;
    }
    assert !ForeignKeyRejects(db.handle, db.users, userId);
    var ok := InsertAll(db, userId, items.value);
    res := if ok then Response(200, Coffees.SavedBody(coffees)) else ServerError;
  }

  /** `POST /api/coffees`: the token comes from the body. */
  method LegacySaveCoffees(db: Db, body: Value) returns (res: Response)
    requires db.Valid()
    modifies db
    ensures db.Valid() && db.handle == old(db.handle) && db.snapshot == old(db.snapshot) && db.users == old(db.users)
    ensures body.Undefined? || body.Null? ==> res == ServerError && unchanged(db)
    ensures !body.Undefined? && !body.Null? && !Truthy(Get(body, "token")) ==> res == Unauthorized && unchanged(db)
    ensures !body.Undefined? && !body.Null? && Truthy(Get(body, "token")) && (old(db.handle).None? || old(db.Fails())) ==>
      res == ServerError && db.coffees == old(db.coffees)
    ensures !body.Undefined? && !body.Null? && Truthy(Get(body, "token")) && old(db.handle).Some? && !old(db.Fails()) ==>
      var found := LookupToken(old(db.users), Param(Get(body, "token")), None);
      && (found.None? ==> res == InvalidToken && db.coffees == old(db.coffees))
      && (found.Some? ==>
            LegacyReplaced(found.value.id, Get(body, "coffees"), old(db.failAt), old(db.calls) + 1,
                           old(db.coffees), old(db.nextCoffeeId), old(db.clock), res, db.coffees))
  {
    if body.Undefined? || body.Null? {
      return ServerError;
    }
    var token := Get(body, "token");
    if !Truthy(token) {
      return Unauthorized;
    }
    var found := db.GetUserByToken(Param(token), None);
    if found.Err? {
      return ServerError;
    }
    if found.value.None? {
      return InvalidToken;
    }
    LookupTokenFinds(db.users, Param(token), None);
    res := LegacyReplace(db, found.value.value.id, Get(body, "coffees"));
  }

  /**
   * A sync that answers 200 leaves the user exactly the posted entries, in order and without
   * uids, and every other user the rows they had.
   */
  lemma LegacySyncMirrors(userId: nat, coffees: Value, failAt: Option<nat>, calls: nat,
                          before: seq<CoffeeRow>, n: nat, t: nat, res: Response, after: seq<CoffeeRow>, other: nat)
    requires LegacyReplaced(userId, coffees, failAt, calls, before, n, t, res, after)
    requires res.status == 200 && other != userId
    ensures Coffees.Visited(coffees).Some?
    ensures OfUser(after, userId) == Inserted(userId, Coffees.Visited(coffees).value, n, t)
    ensures forall x :: x in OfUser(after, userId) ==> x.uid.None?
    ensures OfUser(after, other) == OfUser(before, other)
  {
    var items := Coffees.Visited(coffees).value;
    assert items[..InsertsBefore(failAt, calls + 1, false, |items|)] == items;
    RewriteRows(before, userId, items, n, t, other);
  }

  /**
   * The sync is not atomic: once the delete has run, any later failure answers 500 and leaves
   * the user only the entries inserted before it, none of the rows they had before the sync.
   */
  lemma LegacySyncLosesRows(userId: nat, coffees: Value, failAt: Option<nat>, calls: nat,
                            before: seq<CoffeeRow>, n: nat, t: nat, res: Response, after: seq<CoffeeRow>)
    requires LegacyReplaced(userId, coffees, failAt, calls, before, n, t, res, after)
    requires res.status != 200 && failAt != Some(calls)
    ensures Coffees.Visited(coffees).None? ==> OfUser(after, userId) == []
    ensures Coffees.Visited(coffees).Some? ==>
      exists k: nat :: k < |Coffees.Visited(coffees).value|
                       && OfUser(after, userId) == Inserted(userId, Coffees.Visited(coffees).value[..k], n, t)
    ensures forall x :: x in after && x.userId == userId ==> x.uid.None? && x.id >= n
  {
    var items := Coffees.Visited(coffees);
    if items.None? {
      DeleteOnlyThatUser(before, userId, userId + 1);
    } else {
      var k := InsertsBefore(failAt, calls + 1, false, |items.value|);
      RewriteRows(before, userId, items.value[..k], n, t, userId + 1);
      assert OfUser(after, userId) == Inserted(userId, items.value[..k], n, t);
      forall x | x in after && x.userId == userId ensures x.uid.None? && x.id >= n {
        assert x in OfUser(after, userId);
      }
    }
  }

  /**
   * Listing right after a successful sync lists exactly the rows of the posted entries, each
   * once: entry `j` as the row with id `n + j`, stamped with the instant of the sync. All of
   * them share that instant, so `ORDER BY created_at DESC` leaves their order open.
   * `LegacyList(r)` then spreads each row into a fresh object.
   */
  lemma LegacySyncThenList(rows: seq<CoffeeRow>, userId: nat, items: seq<Value>, n: nat, t: nat, r: seq<CoffeeRow>)
    requires NewestOrder(r, WithoutUser(rows, userId) + Inserted(userId, items, n, t), userId)
    ensures multiset(r) == multiset(Inserted(userId, items, n, t))
    ensures |LegacyListing(r)| == |items|
    ensures forall i :: 0 <= i < |r| ==> exists j :: 0 <= j < |items| && r[i] == CoffeeRow(n + j, userId, None, items[j], t)
    ensures forall j :: 0 <= j < |items| ==> exists i :: 0 <= i < |r| && r[i] == CoffeeRow(n + j, userId, None, items[j], t)
  {
    RewriteAnyOrder(rows, userId, items, n, t, r);
    InsertedAnyOrder(r, userId, items, n, t);
  }

  /** Any order of the inserted rows holds each posted entry's row exactly where it holds one. */
  lemma InsertedAnyOrder(r: seq<CoffeeRow>, userId: nat, items: seq<Value>, n: nat, t: nat)
    requires multiset(r) == multiset(Inserted(userId, items, n, t))
    ensures |r| == |items|
    ensures forall i :: 0 <= i < |r| ==> exists j :: 0 <= j < |items| && r[i] == CoffeeRow(n + j, userId, None, items[j], t)
    ensures forall j :: 0 <= j < |items| ==> exists i :: 0 <= i < |r| && r[i] == CoffeeRow(n + j, userId, None, items[j], t)
  {
    var ins := Inserted(userId, items, n, t);
    assert |r| == |ins| by {
      assert |multiset(r)| == |multiset(ins)|;
    }
    forall i | 0 <= i < |r|
      ensures exists j :: 0 <= j < |items| && r[i] == CoffeeRow(n + j, userId, None, items[j], t)
    {
      assert r[i] in multiset(ins);
      var j :| 0 <= j < |ins| && ins[j] == r[i];
    }
    forall j | 0 <= j < |items|
      ensures exists i :: 0 <= i < |r| && r[i] == CoffeeRow(n + j, userId, None, items[j], t)
    {
      assert ins[j] in multiset(r);
      var i :| 0 <= i < |r| && r[i] == ins[j];
    }
  }

  // ---------------------------------------------------------------------------
  // CORS
  // ---------------------------------------------------------------------------

  /** The origins development mode adds. */
  const DevelopmentOrigins: seq<string> := ["http://localhost:3000", "http://localhost:5173", "http://127.0.0.1:5173"]

  /** Each piece trimmed. */
  function TrimAll(parts: seq<string>): (r: seq<string>)
    ensures |r| == |parts| && forall i :: 0 <= i < |parts| ==> r[i] == Trim(parts[i])
  {
    seq(|parts|, i requires 0 <= i < |parts| => Trim(parts[i]))
  }

  /** `ALLOWED_ORIGINS ? ALLOWED_ORIGINS.split(',').map(o => o.trim()) : []`. */
  function ConfiguredOrigins(allowed: Option<string>): seq<string> {
    if allowed.Some? && allowed.value != "" then TrimAll(Split(allowed.value, ',')) else []
  }

  /** The list as the server builds it at start-up from `ALLOWED_ORIGINS` and `NODE_ENV`. */
  method BuildAllowedOrigins(allowed: Option<string>, nodeEnv: Option<string>) returns (origins: seq<string>)
    ensures origins == ConfiguredOrigins(allowed) + (if nodeEnv == Some("development") then DevelopmentOrigins else [])
  {
    origins := ConfiguredOrigins(allowed);
    if nodeEnv == Some("development") {
      origins := origins + ["http://localhost:3000"];
      origins := origins + ["http://localhost:5173"];
      origins := origins + ["http://127.0.0.1:5173"];
    }
  }

  /** The `origin` callback passes a request with no (or an empty) `Origin` header, or one whose
      origin is listed verbatim; any other is handed to the error handler. */
  predicate OriginAllowed(origin: Option<string>, origins: seq<string>) {
    origin.None? || origin.value == "" || origin.value in origins
  }

  /** What the CORS layer does with a request: nothing, or the error handler's 500. */
  function CorsCheck(origin: Option<string>, origins: seq<string>): (r: Option<Response>)
    ensures r.None? <==> OriginAllowed(origin, origins)
    ensures r.Some? ==> r.value == Response(500, ErrorBody("Internal server error"))
  {
    if OriginAllowed(origin, origins) then None else Some(Response(500, ErrorBody("Internal server error")))
  }

  /**
   * A comma-separated configuration allows each of its origins with the surrounding white
   * space removed, and nothing else outside development.
   */
  lemma {:induction false} ConfiguredOriginsAllowed(parts: seq<string>, nodeEnv: Option<string>, origin: string)
    requires |parts| >= 1 && forall i :: 0 <= i < |parts| ==> ',' !in parts[i]
    requires Join(parts, ',') != "" && origin != ""
    ensures (exists i :: 0 <= i < |parts| && Trim(parts[i]) == origin) ==>
      OriginAllowed(Some(origin), ConfiguredOrigins(Some(Join(parts, ','))) + (if nodeEnv == Some("development") then DevelopmentOrigins else []))
    ensures nodeEnv != Some("development") ==>
      (OriginAllowed(Some(origin), ConfiguredOrigins(Some(Join(parts, ','))))
       <==> exists i :: 0 <= i < |parts| && Trim(parts[i]) == origin)
  {
    SplitJoin(parts, ',');
    var listed := TrimAll(parts);
    assert ConfiguredOrigins(Some(Join(parts, ','))) == listed;
    if exists i :: 0 <= i < |parts| && Trim(parts[i]) == origin {
      var i :| 0 <= i < |parts| && Trim(parts[i]) == origin;
      assert listed[i] == origin;
    }
  }

  /** With no configuration outside development every request that carries an origin is
      refused; only requests without one (same-origin or non-browser) pass. */
  lemma UnconfiguredRefusesOrigins(allowed: Option<string>, nodeEnv: Option<string>, origin: Option<string>)
    requires allowed.None? || allowed == Some("")
    requires nodeEnv != Some("development")
    ensures OriginAllowed(origin, ConfiguredOrigins(allowed) + (if nodeEnv == Some("development") then DevelopmentOrigins else []))
      <==> origin.None? || origin == Some("")
  {
  }

  /** In development the three local origins pass whatever is configured. */
  lemma DevelopmentAllowsLocal(allowed: Option<string>, origin: string)
    requires origin in DevelopmentOrigins
    ensures OriginAllowed(Some(origin), ConfiguredOrigins(allowed) + DevelopmentOrigins)
  {
  }
}
