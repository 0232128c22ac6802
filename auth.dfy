/**
 * Authentication with device binding: the credential extraction and the user-agent
 * classification of middleware/auth.js, the `authenticateUser` middleware, and the
 * `GET /validate` handler of routes/auth.js.
 *
 * A token belongs to one user; the first device that presents it is bound to the user
 * (`device_id` goes from unset to set), and from then on only that device is admitted.
 */
module Auth {
  import opened Wrappers
  import opened Text
  import opened JsValue
  import opened Database

  /** The parts of an HTTP request the handlers read. Header values are strings; the
      parsed JSON body and the parsed query string are values. */
  datatype Request = Request(
    authorization: Option<string>,
    deviceHeader: Option<string>,   // X-Device-ID
    userAgent: Option<string>,      // User-Agent
    body: Value,
    query: Value)

  /** An HTTP response: its status and its JSON body. */
  datatype Response = Response(status: nat, body: Value)

  /** What a middleware does with a request: hand it on with `req.user` set, or answer it. */
  datatype Outcome = Next(user: UserRow) | Replied(response: Response)

  datatype Credentials = Credentials(token: Value, deviceId: Value)

  // ---------------------------------------------------------------------------
  // Credentials
  // ---------------------------------------------------------------------------

  /** A header value in the role of a JavaScript value: absent headers read as `undefined`. */
  function HeaderValue(h: Option<string>): Value {
    if h.Some? then Str(h.value) else Undefined
  }

  /** `authHeader && authHeader.startsWith('Bearer ')`: the prefix is case-sensitive. */
  predicate IsBearer(authorization: Option<string>) {
    authorization.Some? && StartsWith(authorization.value, "Bearer ")
  }

  /** `extractAuthCredentials(req)`. */
  function ExtractAuthCredentials(req: Request): Credentials {
    var token :=
      if IsBearer(req.authorization) then Str(req.authorization.value[7..])
      else Or(Get(req.body, "token"), Get(req.query, "token"));
    var deviceId := Or(Or(HeaderValue(req.deviceHeader), Get(req.body, "deviceId")), Get(req.query, "deviceId"));
    Credentials(token, deviceId)
  }

  /** The token is the text after a `Bearer ` header, else the body's truthy token, else the query's. */
  lemma TokenPrecedence(req: Request)
    ensures var c := ExtractAuthCredentials(req);
      && (IsBearer(req.authorization) ==> c.token == Str(req.authorization.value[7..]))
      && (!IsBearer(req.authorization) && Truthy(Get(req.body, "token")) ==> c.token == Get(req.body, "token"))
      && (!IsBearer(req.authorization) && !Truthy(Get(req.body, "token")) ==> c.token == Get(req.query, "token"))
  {
  }

  /** A bearer header decides the token on its own, when its remainder is empty too: body and query are not consulted. */
  lemma BearerHeaderWins(req: Request, body: Value, query: Value)
    requires IsBearer(req.authorization)
    ensures ExtractAuthCredentials(req.(body := body, query := query)).token == ExtractAuthCredentials(req).token
    ensures req.authorization == Some("Bearer ") ==> !Truthy(ExtractAuthCredentials(req).token)
  {
  }

  /** The device id is the first truthy one of the header, the body and the query. */
  lemma DeviceIdPrecedence(req: Request)
    ensures Truthy(ExtractAuthCredentials(req).deviceId) <==>
      Truthy(HeaderValue(req.deviceHeader)) || Truthy(Get(req.body, "deviceId")) || Truthy(Get(req.query, "deviceId"))
    ensures Truthy(HeaderValue(req.deviceHeader)) ==> ExtractAuthCredentials(req).deviceId == Str(req.deviceHeader.value)
    ensures !Truthy(HeaderValue(req.deviceHeader)) && Truthy(Get(req.body, "deviceId")) ==>
      ExtractAuthCredentials(req).deviceId == Get(req.body, "deviceId")
    ensures !Truthy(HeaderValue(req.deviceHeader)) && !Truthy(Get(req.body, "deviceId")) ==>
      ExtractAuthCredentials(req).deviceId == Get(req.query, "deviceId")
  {
  }

  // ---------------------------------------------------------------------------
  // Device description
  // ---------------------------------------------------------------------------

  datatype DeviceInfo = DeviceInfo(platform: string, os: string, userAgent: string)

  /** The operating-system rules in the order they are tried: a marker in the user agent and the name reported. */
  const OsRules: seq<(string, string)> :=
    [("Mac", "macOS"), ("Windows", "Windows"), ("Linux", "Linux"), ("Android", "Android"), ("iPhone", "iOS")]

  /** `req.headers['user-agent'] || 'unknown'`. */
  function UserAgentOf(h: Option<string>): (ua: string)
    ensures ua != []
  {
    if h.Some? && h.value != "" then h.value else "unknown"
  }

  function OsOf(ua: string): string {
    if Contains(ua, "Mac") then "macOS"
    else if Contains(ua, "Windows") then "Windows"
    else if Contains(ua, "Linux") then "Linux"
    else if Contains(ua, "Android") then "Android"
    else if Contains(ua, "iPhone") then "iOS"
    else "unknown"
  }

  /** `getDeviceInfo(req)`. */
  function GetDeviceInfo(userAgent: Option<string>): (d: DeviceInfo)
    ensures var ua := UserAgentOf(userAgent);
      && (d.platform == "mobile" <==> Contains(ua, "Mobile"))
      && (d.platform == "mobile" || d.platform == "desktop")
      && |d.userAgent| <= 100 && |d.userAgent| <= |ua| && d.userAgent == ua[..|d.userAgent|]
      && (|ua| <= 100 ==> d.userAgent == ua)
  {
    var ua := UserAgentOf(userAgent);
    DeviceInfo(if Contains(ua, "Mobile") then "mobile" else "desktop", OsOf(ua), Prefix(ua, 100))
  }

  /** The reported system is the one of the first rule whose marker occurs, or "unknown" when none does. */
  lemma {:induction false} OsIsFirstRule(ua: string)
    ensures OsOf(ua) == "unknown" <==> forall k :: 0 <= k < |OsRules| ==> !Contains(ua, OsRules[k].0)
    ensures OsOf(ua) != "unknown" ==>
      exists k :: 0 <= k < |OsRules| && Contains(ua, OsRules[k].0) && OsOf(ua) == OsRules[k].1
        && forall j :: 0 <= j < k ==> !Contains(ua, OsRules[j].0)
  {
    var names := ["macOS", "Windows", "Linux", "Android", "iOS"];
    assert forall k :: 0 <= k < |OsRules| ==> OsRules[k].1 == names[k];
    assert "unknown" != "macOS" && "unknown" != "Windows" && "unknown" != "Linux" && "unknown" != "Android"
      && "unknown" != "iOS" by {
      assert "unknown"[0] == 'u';
    }
    if Contains(ua, "Mac") {
      assert Contains(ua, OsRules[0].0);
    } else if Contains(ua, "Windows") {
      assert Contains(ua, OsRules[1].0);
    } else if Contains(ua, "Linux") {
      assert Contains(ua, OsRules[2].0);
    } else if Contains(ua, "Android") {
      assert Contains(ua, OsRules[3].0);
    } else if Contains(ua, "iPhone") {
      assert Contains(ua, OsRules[4].0);
    }
  }

  /** `JSON.stringify({ platform, os, userAgent })`, the text stored in `device_info`. */
  function DeviceInfoText(d: DeviceInfo): (t: string)
    ensures |t| >= 2 && t[0] == '{' && t[|t| - 1] == '}'
  {
    "{\"platform\":" + JsonQuote(d.platform) + ",\"os\":" + JsonQuote(d.os)
    + ",\"userAgent\":" + JsonQuote(d.userAgent) + "}"
  }

  // ---------------------------------------------------------------------------
  // The decision procedure
  // ---------------------------------------------------------------------------

  /** `user.device_id` is truthy: the user is bound to a device. */
  predicate IsBound(u: UserRow) {
    u.deviceId.Some? && u.deviceId.value != ""
  }

  /** What the checks conclude, in the order they are made. */
  datatype Verdict =
    | NoToken                   // 400 Token required
    | NoDevice                  // 400 Device ID required
    | UnknownToken              // 401 Invalid token
    | OtherDevice               // 403 bound to another device
    | FirstUse(user: UserRow)   // bind the device, then admit
    | SameDevice(user: UserRow) // admit

  /** The verdict for the credentials and the row `getUserByToken(token)` found. */
  function Decide(c: Credentials, found: Option<UserRow>): (v: Verdict)
    ensures (v.FirstUse? || v.SameDevice?) ==> found == Some(v.user)
  {
    if !Truthy(c.token) then NoToken
    else if !Truthy(c.deviceId) then NoDevice
    else if found.None? then UnknownToken
    else if IsBound(found.value) then
      if Str(found.value.deviceId.value) == c.deviceId then SameDevice(found.value) else OtherDevice
    else FirstUse(found.value)
  }

  /** The checks come in a fixed order: token, device, known token, device binding. */
  lemma DecisionOrder(c: Credentials, found: Option<UserRow>)
    ensures var v := Decide(c, found);
      && (v.NoToken? <==> !Truthy(c.token))
      && (v.NoDevice? <==> Truthy(c.token) && !Truthy(c.deviceId))
      && (v.UnknownToken? <==> Truthy(c.token) && Truthy(c.deviceId) && found.None?)
      && (v.OtherDevice? <==>
            Truthy(c.token) && Truthy(c.deviceId) && found.Some? && IsBound(found.value)
            && c.deviceId != Str(found.value.deviceId.value))
      && (v.SameDevice? <==>
            Truthy(c.token) && Truthy(c.deviceId) && found.Some? && IsBound(found.value)
            && c.deviceId == Str(found.value.deviceId.value))
      && (v.FirstUse? <==> Truthy(c.token) && Truthy(c.deviceId) && found.Some? && !IsBound(found.value))
  {
  }

  function ErrorBody(message: string): Value {
    Obj(map["success" := Bool(false), "error" := Str(message)])
  }

  const ServerError := Response(500, ErrorBody("Server error"))

  /** The rejection the middleware sends for a verdict that does not admit. */
  function Rejection(v: Verdict): Response
    requires !v.FirstUse? && !v.SameDevice?
  {
    match v
    case NoToken => Response(400, ErrorBody("Token required"))
    case NoDevice => Response(400, ErrorBody("Device ID required"))
    case UnknownToken => Response(401, ErrorBody("Invalid token"))
    case OtherDevice => Response(403, ErrorBody("This token is already bound to another device"))
  }

  /** The text a value becomes as a bound SQL parameter. */
  function Param(v: Value): string {
    ToJsString(v)
  }

  /** No row that was bound to a device is bound to a different one, or loses its binding. */
  ghost predicate BindingsKept(before: seq<User>, after: seq<User>) {
    |after| == |before|
    && forall i :: 0 <= i < |before| && before[i].deviceId.Some? && before[i].deviceId.value != "" ==>
      after[i].deviceId == before[i].deviceId
  }

  /** Binding the device of a user that `getUserByToken` found unbound keeps every existing binding. */
  lemma FirstBindKeepsBindings(users: seq<User>, token: string, deviceId: string, info: string, t: nat)
    requires UsersUnique(users)
    requires LookupToken(users, token, None).Some? && !IsBound(LookupToken(users, token, None).value)
    ensures BindingsKept(users, WithDevice(users, LookupToken(users, token, None).value.id, deviceId, info, t))
  {
    LookupTokenFinds(users, token, None);
    var row := LookupToken(users, token, None).value;
    var u :| u in users && u.token == token && row == RowOf(u);
    var r := WithDevice(users, row.id, deviceId, info, t);
    forall i | 0 <= i < |users| && users[i].deviceId.Some? && users[i].deviceId.value != ""
      ensures r[i].deviceId == users[i].deviceId
    {
      var j :| 0 <= j < |users| && users[j] == u;
      assert users[i] != u;
      UniqueAt(users, i, j);
    }
  }

  /** The store's answer to `getUserByToken(token)` for the credentials, when the statement runs. */
  function Found(users: seq<User>, c: Credentials): Option<UserRow> {
    LookupToken(users, Param(c.token), None)
  }

  // ---------------------------------------------------------------------------
  // authenticateUser
  // ---------------------------------------------------------------------------

  /** How the checks shared by the middleware and `/validate` end. */
  datatype Admission =
    | Admitted(user: UserRow)   // the request goes on as this user
    | Refused(verdict: Verdict) // a 400, 401 or 403 rejection
    | Failed                    // a storage error or a thrown exception: 500

  /** What the checks depend on in the store: the connection, the `users` rows, the statement
      counter, the fault plan and the clock. */
  datatype StoreState = StoreState(handle: Option<Backend>, users: seq<User>, calls: nat, failAt: Option<nat>, clock: nat)

  function StateOf(db: Db): StoreState
    reads db
  {
    StoreState(db.handle, db.users, db.calls, db.failAt, db.clock)
  }

  /** The device description stored on first use. */
  function InfoOf(req: Request): string {
    DeviceInfoText(GetDeviceInfo(req.userAgent))
  }

  /** The end of the checks: the admission, the `users` rows after them, and how many
      statements ran. */
  datatype Checked = Checked(admission: Admission, users: seq<User>, statements: nat)

  /**
   * The checks against a store, for the extracted credentials and the row the lookup
   * finds: the two credential checks, then `getUserByToken(token)`, then the binding check;
   * on first use `bindDevice`, which fails as the failing statement or, on SQLite, when
   * another row holds the device, and then the log line, which throws unless the device id
   * is a string.
   */
  function Checks(st: StoreState, c: Credentials, found: Option<UserRow>, info: string): Checked {
    var v := Decide(c, found);
    if v.NoToken? || v.NoDevice? then Checked(Refused(v), st.users, 0)
    else if st.handle.None? then Checked(Failed, st.users, 0)
    else if st.failAt == Some(st.calls) then Checked(Failed, st.users, 1)
    else if v.UnknownToken? || v.OtherDevice? then Checked(Refused(v), st.users, 1)
    else if v.SameDevice? then Checked(Admitted(v.user), st.users, 1)
    else if st.failAt == Some(st.calls + 1) || BindConflict(st.handle, st.users, v.user.id, Param(c.deviceId)) then
      Checked(Failed, st.users, 2)
    else
      Checked(if c.deviceId.Str? then Admitted(v.user) else Failed,
        WithDevice(st.users, v.user.id, Param(c.deviceId), info, st.clock), 2)
  }

  /** The checks of a request against a store. */
  function Check(st: StoreState, req: Request): (r: Checked)
    ensures r.admission.Refused? ==> !r.admission.verdict.FirstUse? && !r.admission.verdict.SameDevice?
  {
    var c := ExtractAuthCredentials(req);
    ChecksAdmit(st, c, Found(st.users, c), InfoOf(req));
    Checks(st, c, Found(st.users, c), InfoOf(req))
  }

  /** A refusal carries a rejecting verdict, and an admitted user is the row the lookup found,
      presenting the device it is bound to when it is bound. */
  lemma ChecksAdmit(st: StoreState, c: Credentials, found: Option<UserRow>, info: string)
    ensures var r := Checks(st, c, found, info);
      && (r.admission.Refused? ==> !r.admission.verdict.FirstUse? && !r.admission.verdict.SameDevice?)
      && (r.admission.Admitted? ==>
            && Truthy(c.token) && Truthy(c.deviceId) && st.handle.Some? && found == Some(r.admission.user)
            && (!IsBound(r.admission.user) || c.deviceId == Str(r.admission.user.deviceId.value)))
  {
  }

  /** The checks write at most the binding of a first use, and nothing on a rejection. */
  lemma ChecksWrites(st: StoreState, c: Credentials, found: Option<UserRow>, info: string)
    ensures var r := Checks(st, c, found, info); var v := Decide(c, found);
      && (r.users == st.users || (v.FirstUse? && r.users == WithDevice(st.users, v.user.id, Param(c.deviceId), info, st.clock)))
      && (r.admission.Refused? ==> r.users == st.users)
  {
  }

  /** A rejection writes nothing, and an existing binding is never changed. */
  lemma ChecksKeepBindings(st: StoreState, c: Credentials, info: string)
    requires UsersUnique(st.users)
    ensures BindingsKept(st.users, Checks(st, c, Found(st.users, c), info).users)
    ensures Checks(st, c, Found(st.users, c), info).admission.Refused? ==> Checks(st, c, Found(st.users, c), info).users == st.users
  {
    var found := Found(st.users, c);
    ChecksWrites(st, c, found, info);
    if Decide(c, found).FirstUse? {
      FirstBindKeepsBindings(st.users, Param(c.token), Param(c.deviceId), info, st.clock);
    }
  }

  /** The checks of `authenticateUser` and of `/validate` once the credentials and the device
      description are read from the request, up to the point where the two differ. */
  method CheckCredentials(db: Db, c: Credentials, info: string) returns (a: Admission)
    requires db.Valid()
    modifies db
    ensures db.Valid() && db.handle == old(db.handle) && db.snapshot == old(db.snapshot) && db.failAt == old(db.failAt)
    ensures db.coffees == old(db.coffees) && db.calls >= old(db.calls) && db.clock == old(db.clock)
    ensures var r := Checks(old(StateOf(db)), c, Found(old(db.users), c), info);
      a == r.admission && db.users == r.users && db.calls == old(db.calls) + r.statements && db.clock == old(db.clock)
    ensures a.Refused? ==> !a.verdict.FirstUse? && !a.verdict.SameDevice?
    ensures a.Admitted? ==> db.handle.Some?
  {
    if !Truthy(c.token) {
      return Refused(NoToken);
    }
    if !Truthy(c.deviceId) {
      return Refused(NoDevice);
    }
    ghost var users0 := db.users;
    var found := db.GetUserByToken(Param(c.token), None);
    if found.Err? {
      return Failed;
    }
    assert found.value == Found(users0, c);
    var v := Decide(c, found.value);
    if v.UnknownToken? || v.OtherDevice? {
      return Refused(v);
    }
    if v.FirstUse? {
      a := BindFirstDevice(db, v.user, c.deviceId, info);
    } else {
      a := Admitted(v.user);
    }
  }

  /** The first-use branch: `bindDevice`, then the log line that needs a string device id. */
  method BindFirstDevice(db: Db, user: UserRow, deviceId: Value, info: string) returns (a: Admission)
    requires db.Valid() && db.handle.Some?
    modifies db
    ensures db.Valid() && db.handle == old(db.handle) && db.snapshot == old(db.snapshot) && db.failAt == old(db.failAt)
    ensures db.coffees == old(db.coffees) && db.calls == old(db.calls) + 1
    ensures var ok := !old(db.Fails()) && !BindConflict(old(db.handle), old(db.users), user.id, Param(deviceId));
      && a == (if ok && deviceId.Str? then Admitted(user) else Failed)
      && db.users == (if ok then WithDevice(old(db.users), user.id, Param(deviceId), info, old(db.clock)) else old(db.users))
      && db.clock == old(db.clock)
  {
    var bound := db.BindDevice(user.id, Param(deviceId), info);
    // the log line reads `deviceId.substring(0, 8)`, which only a string has
    if bound.Err? || !deviceId.Str? {
      return Failed;
    }
    a := Admitted(user);
  }

  /**
   * `authenticateUser(req, res, next)`: `next()` with `req.user` set for an admitted request,
   * otherwise exactly one response. The rejections come in the order of `Decide`; a storage
   * error or the failing log line answers 500.
   */
  method AuthenticateUser(db: Db, req: Request) returns (out: Outcome)
    requires db.Valid()
    modifies db
    ensures db.Valid() && db.handle == old(db.handle) && db.snapshot == old(db.snapshot) && db.failAt == old(db.failAt)
    ensures db.coffees == old(db.coffees) && db.calls >= old(db.calls) && db.clock == old(db.clock)
    ensures BindingsKept(old(db.users), db.users)
    ensures db.users == Check(old(StateOf(db)), req).users
    ensures out == match Check(old(StateOf(db)), req).admission
      case Admitted(u) => Next(u)
      case Refused(v) => Replied(Rejection(v))
      case Failed => Replied(ServerError)
  {
    var c := ExtractAuthCredentials(req);
    var info := InfoOf(req);
    ChecksKeepBindings(StateOf(db), c, info);
    ChecksAdmit(StateOf(db), c, Found(db.users, c), info);
    var a := CheckCredentials(db, c, info);
    match a
    case Admitted(u) => out := Next(u);
    case Refused(v) => out := Replied(Rejection(v));
    case Failed => out := Replied(ServerError);
  }

  // ---------------------------------------------------------------------------
  // GET /validate
  // ---------------------------------------------------------------------------

  /** `user.device_id` as the row carries it. */
  function DeviceColumn(u: UserRow): Value {
    if u.deviceId.Some? then Str(u.deviceId.value) else Null
  }

  /**
   * The success body of `/validate` for the row `getUserByToken` returned and the presented
   * device id. That lookup selects `id`, `username`, `device_id` and `created_at` only, so the
   * three preference fields always take their defaults.
   */
  function ValidBody(u: UserRow, deviceId: Value): Value {
    Obj(map[
      "success" := Bool(true),
      "valid" := Bool(true),
      "user" := Obj(map[
        "id" := NumberOf(u.id),
        "username" := Str(u.username),
        "deviceId" := Or(DeviceColumn(u), deviceId),
        "grinderPreference" := Str("fellow_gen2"),
        "methodPreference" := Str("v60"),
        "waterHardness" := Null,
        "createdAt" := Str(NatToString(u.createdAt))])])
  }

  /** The rejections of `/validate`: those of the middleware, with `valid: false` on 401 and 403. */
  function ValidateRejection(v: Verdict): (r: Response)
    requires !v.FirstUse? && !v.SameDevice?
    ensures r.status == Rejection(v).status
    ensures (v.UnknownToken? || v.OtherDevice?) ==> Get(r.body, "valid") == Bool(false)
  {
    var base := Rejection(v);
    if v.UnknownToken? || v.OtherDevice? then Response(base.status, Obj(base.body.fields["valid" := Bool(false)]))
    else base
  }

  /** The answer of `/validate` after the checks, given the statement counter and the fault
      plan the checks leave: a rejection or failure answers at once; an admitted user is
      answered with the success body unless `updateLastLogin`, the next statement, fails. */
  function ValidateAnswer(a: Admission, calls: nat, failAt: Option<nat>, deviceId: Value): Response
    requires a.Refused? ==> !a.verdict.FirstUse? && !a.verdict.SameDevice?
  {
    match a
    case Refused(v) => ValidateRejection(v)
    case Failed => ServerError
    case Admitted(u) => if failAt == Some(calls) then ServerError else Response(200, ValidBody(u, deviceId))
  }

  /** The `users` rows `/validate` leaves after the checks: an admitted user's login is stamped
      unless that statement fails. */
  function ValidateUsers(a: Admission, users: seq<User>, calls: nat, failAt: Option<nat>, clock: nat): seq<User> {
    if a.Admitted? && failAt != Some(calls) then WithLastLogin(users, a.user.id, clock) else users
  }

  /** The answer of `/validate` and the `users` rows after it, for the credentials, the row
      the lookup finds and the device description. */
  function ValidateRuns(st: StoreState, c: Credentials, found: Option<UserRow>, info: string): (Response, seq<User>) {
    ChecksAdmit(st, c, found, info);
    var r := Checks(st, c, found, info);
    (ValidateAnswer(r.admission, st.calls + r.statements, st.failAt, c.deviceId),
     ValidateUsers(r.admission, r.users, st.calls + r.statements, st.failAt, st.clock))
  }

  /** `/validate` for a request. */
  function ValidateRun(st: StoreState, req: Request): (Response, seq<User>) {
    var c := ExtractAuthCredentials(req);
    ValidateRuns(st, c, Found(st.users, c), InfoOf(req))
  }

  /**
   * A success answers for the row the token lookup found, with a truthy token and device id,
   * and reports the presented device id: a bound row presents its own device, and an unbound
   * row has an empty or missing column, so `user.device_id || deviceId` is the presented one.
   */
  lemma ValidateReportsDevice(st: StoreState, c: Credentials, found: Option<UserRow>, info: string)
    requires ValidateRuns(st, c, found, info).0.status == 200
    ensures Truthy(c.token) && Truthy(c.deviceId) && found.Some?
    ensures var user := Get(ValidateRuns(st, c, found, info).0.body, "user");
      && Get(user, "id") == NumberOf(found.value.id)
      && Get(user, "username") == Str(found.value.username)
      && Get(user, "deviceId") == c.deviceId
  {
    ChecksAdmit(st, c, found, info);
    var u := Checks(st, c, found, info).admission.user;
    if IsBound(u) {
      assert DeviceColumn(u) == Str(u.deviceId.value);
    } else if u.deviceId.Some? {
      assert DeviceColumn(u) == Str("");
    }
  }

  /** `/validate` writes nothing on a rejection and never changes or removes an existing device binding. */
  lemma ValidateKeepsBindings(st: StoreState, c: Credentials, info: string)
    requires UsersUnique(st.users)
    ensures BindingsKept(st.users, ValidateRuns(st, c, Found(st.users, c), info).1)
    ensures Checks(st, c, Found(st.users, c), info).admission.Refused? ==> ValidateRuns(st, c, Found(st.users, c), info).1 == st.users
  {
    ChecksKeepBindings(st, c, info);
  }

  /**
   * `GET /validate`: the checks of the middleware, then `updateLastLogin`, then the user with
   * its preference defaults. Every error answers 500 with no success body.
   */
  method Validate(db: Db, req: Request) returns (res: Response)
    requires db.Valid()
    modifies db
    ensures db.Valid() && db.handle == old(db.handle) && db.snapshot == old(db.snapshot)
    ensures db.coffees == old(db.coffees)
    ensures res == ValidateRun(old(StateOf(db)), req).0 && db.users == ValidateRun(old(StateOf(db)), req).1
  {
    var c := ExtractAuthCredentials(req);
    res := ValidateCredentials(db, c, InfoOf(req));
  }

  /** `/validate` once the credentials and the device description are read. */
  method ValidateCredentials(db: Db, c: Credentials, info: string) returns (res: Response)
    requires db.Valid()
    modifies db
    ensures db.Valid() && db.handle == old(db.handle) && db.snapshot == old(db.snapshot)
    ensures db.coffees == old(db.coffees)
    ensures var run := ValidateRuns(old(StateOf(db)), c, Found(old(db.users), c), info);
      res == run.0 && db.users == run.1
  {
    ghost var st := StateOf(db);
    ghost var r := Checks(st, c, Found(st.users, c), info);
    var a := CheckCredentials(db, c, info);
    assert a == r.admission && db.calls == st.calls + r.statements && db.failAt == st.failAt;
    res := Answer(db, a, c.deviceId);
  }

  /** The end of `/validate` against the store the checks leave. */
  method Answer(db: Db, a: Admission, deviceId: Value) returns (res: Response)
    requires db.Valid() && (a.Admitted? ==> db.handle.Some?)
    requires a.Refused? ==> !a.verdict.FirstUse? && !a.verdict.SameDevice?
    modifies db
    ensures db.Valid() && db.handle == old(db.handle) && db.snapshot == old(db.snapshot)
    ensures db.coffees == old(db.coffees)
    ensures res == ValidateAnswer(a, old(db.calls), old(db.failAt), deviceId)
    ensures db.users == ValidateUsers(a, old(db.users), old(db.calls), old(db.failAt), old(db.clock))
  {
    match a
    case Refused(v) => res := ValidateRejection(v);
    case Failed => res := ServerError;
    case Admitted(u) => res := Login(db, u, deviceId);
  }

  /** The end of `/validate` for an admitted user: `updateLastLogin`, then the success body. */
  method Login(db: Db, user: UserRow, deviceId: Value) returns (res: Response)
    requires db.Valid() && db.handle.Some?
    modifies db
    ensures db.Valid() && db.handle == old(db.handle) && db.snapshot == old(db.snapshot)
    ensures db.coffees == old(db.coffees)
    ensures old(db.Fails()) ==> res == ServerError && db.users == old(db.users)
    ensures !old(db.Fails()) ==>
      res == Response(200, ValidBody(user, deviceId)) && db.users == WithLastLogin(old(db.users), user.id, old(db.clock))
  {
    var login := db.UpdateLastLogin(user.id);
    if login.Err? {
      return ServerError;
    }
    res := Response(200, ValidBody(user, deviceId));
  }
}
