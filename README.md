# dripmate-backend in Dafny

A Dafny model of the core of the dripmate backend, an Express/Node.js service for a coffee-brewing
app. The model covers:

- the coffee sanitizer (`utils/sanitize.js`);
- the storage layer (`db/database.js`);
- the token and device authentication middleware (`middleware/auth.js`) and `GET /api/auth/validate`
  (`routes/auth.js`);
- the coffee sync endpoints (`routes/coffees.js`);
- the inline brew editor (`routes/brews.js`);
- the whitelist and magic-token registration (`routes/register.js`);
- the legacy handlers and the CORS policy still defined in `server.js`.

## Modules

One module per source file, plus three helper modules:

- `Wrappers` holds `Option` and `Result`.
- `Text` holds whitespace trimming in the ECMAScript sense, ASCII case mapping, `split`/`join` and
  decimal rendering.
- `JsValue` models JavaScript values (`undefined`, `null`, booleans, numbers by their canonical
  text, strings, arrays and objects), together with property access, object spread, `String(x)`
  and truthiness.

The database is a class, `Database.Db`:

- **Fields.** The `users` and `coffees` tables and the connection handle. The open transaction is a
  snapshot of both tables. There are id sequences and a clock that stands for `CURRENT_TIMESTAMP`.
  Every write within one request is stamped with the same instant, so timestamps can tie. Only
  `Db.Tick`, the passing of time between requests, advances the clock.
- **Fault plan.** Statement number `failAt` raises an error and changes nothing. `BEGIN`, `COMMIT`
  and `ROLLBACK` count as statements too. A failing `COMMIT` leaves the transaction open, and a
  failing `ROLLBACK` changes nothing. At most one statement fails per run, so the paths reachable
  this way are those with a single failure.
- **Queries.** Each query of `db/database.js` is a method. It says what it returns, what the tables
  become, and which unique or foreign-key constraint refuses it.
- **Table invariant.** `Db.Valid`: user ids, usernames and tokens are unique. Coffee row ids
  increase in insertion order, and no timestamp is later than the clock. Each user has at most one
  row per coffee uid.

The request handlers are methods over a `Db`. Each is proved against a function of the old
state that defines the response together with the new tables. Most of the properties are lemmas about
those functions.

### Behaviour the model makes explicit

The proofs state these facts about the code as written:

- **Sync order of the legacy store.** `POST /api/coffees` in `server.js` deletes first and then
  inserts row by row, outside any transaction (`LegacySyncLosesRows`). A failure part way leaves the
  user with only a prefix of the payload and answers 500. A payload that is not iterable but whose
  `length` is greater than zero deletes everything and then answers 500. "Greater than zero" is
  `Number(length) > 0`: a positive number, `true`, a numeric string such as `"3"` or `"0x1"`, or an
  array through its `String` form (`GreaterThanZero`, `PositiveCountText`).
- **Listing order is open after a sync.** `ORDER BY created_at DESC` is the only order the
  listing promises. `GetUserCoffees` returns the user's rows as a permutation with descending
  timestamps. All rows of one sync share one instant. A listing right after a legacy sync
  therefore holds each posted entry exactly once, in an order the code leaves open
  (`RewriteAnyOrder`, `LegacySyncThenList`).
- **Legacy sign-up can fail late.** `POST /api/auth/register` in `server.js` answers 500 after the
  user has already been created, when the second count fails (`SignupFailsAfterCreate`).
- **Registration retries can give up.** When all ten token candidates are taken, the registration
  retry loop inserts the last candidate anyway, which duplicates a token
  (`ExhaustedRetriesDuplicate`). This assumes that `registrations` has no `UNIQUE(token)`
  constraint, since its schema is not part of this model.
- **Brew edits lose the coffee uid.** `PATCH /api/brews/:id` rewrites every coffee of the user
  without a coffee uid. It also drops each document's own `id` and `savedAt`
  (`StoredLacksRuntimeFields`, `RewriteInTransaction`).

### Where the model follows the code as written

- `stripHTML` makes one pass of each regular expression, not a pass repeated to a fixed point. One
  pass already reaches a fixed point: the entity pass cannot create a new tag, so stripping the result
  again changes nothing (`StripEntitiesKeepsTagFree`, `StripHtmlIdempotent`).
- `validateProcess` falls back to `washed`, which is the code's default.

### Where the model departs from the code

- **Missing `coffee_uid` column.** `getUserCoffees` as written selects only `id, data, created_at`
  (`db/database.js:329-342`), not the `coffee_uid` column that the coffee routes read. The model's
  row carries the uid, which is the interface those routes expect. `Coffees.ListCoffees`,
  `GetThenPostKeepsUid` and `ListedKeepsUid` depend on it.
- **Transaction helpers are modelled from their callers.** `beginTransaction`, `commit` and
  `rollback` are imported at `routes/coffees.js:8` and `routes/brews.js:98`, and
  `queries.replaceUserCoffees` and the uid-taking `queries.saveCoffee` are called at
  `routes/coffees.js:151-156`. None of them is defined in `db/database.js`. The model gives them the behaviour their use at
  `routes/coffees.js:133-170` and `routes/brews.js:96-112` calls for, which is an assumption:
  - `beginTransaction` snapshots both tables and refuses while a transaction is open;
  - `commit` keeps the changes, and a failing `COMMIT` leaves the transaction open;
  - `rollback` restores both tables to the snapshot, and a failing `ROLLBACK` changes nothing;
  - `saveCoffee(userId, uid, data)` is an upsert on `(user_id, coffee_uid)`: an existing row keeps
    its id and place and takes the new document and the current `created_at`, otherwise a row is
    appended;
  - `replaceUserCoffees(userId, uids)` deletes the user's rows whose uid is not listed.

  `Coffees.SaveInTransaction`, `Coffees.SaveCoffees`, `Coffees.PostMirrorsPayload`,
  `Brews.RewriteInTransaction` and `Brews.PatchBrew` depend on these assumptions.

## Model

| member | source | states |
|---|---|---|
| `Text.TrimStart` | utils/sanitize.js:45 | the result is a suffix of the input that starts with no whitespace |
| `Text.TrimEnd` | utils/sanitize.js:45 | the result is a prefix of the input that ends with no whitespace |
| `Text.TrimIdempotent` | server.js:116 | trimming twice equals trimming once |
| `Text.LowerOfTrimmedLower` | routes/register.js:180 | a lower-cased, trimmed e-mail is a fixed point of lower-casing |
| `Text.JoinSplit` | server.js:69 | joining the comma-split parts gives back the configured string |
| `Text.SplitJoin` | server.js:69 | splitting a join of comma-free parts gives back the parts |
| `Text.NatToString` | server.js:232 | a row timestamp renders as a non-empty run of decimal digits |
| `Text.NatToStringInjective` | server.js:229-233 | different indices render as different property names |
| `JsValue.Or` | middleware/auth.js:18-22 | `a \|\| b` is `a` when `a` is truthy and `b` otherwise |
| `JsValue.Chars` | server.js:229-233 | a string spreads as its one-character strings, one per character, in order |
| `JsValue.IndexedHas` | server.js:229-233 | after spreading an array or string, the key `String(i)` holds element `i` |
| `JsValue.IndexedOnly` | server.js:229-233 | a spread array or string has no key other than its indices |
| `JsValue.SpreadIndexKeys` | routes/coffees.js:108-112 | spreading a parsed array or string gives only digit-led keys, so no `id`, `name` or `savedAt` |
| `JsValue.PositiveCountText` | routes/coffees.js:138 | a count is `> 0` exactly when it is positive, whether it is a number or its decimal string |
| `JsValue.DigitsGreaterThanZero` | routes/coffees.js:138 | a string of digits is `> 0` exactly when one of its digits is not `0` |
| `Sanitize.TagEnd` | utils/sanitize.js:17 | a tag match ends at the first `>` after the `<` |
| `Sanitize.EntityEnd` | utils/sanitize.js:18 | an entity match ends at the first `;` after the `&` |
| `Sanitize.StripHtml` | utils/sanitize.js:13-19 | a non-string gives "", and otherwise the result is no longer than the input and uses only its characters |
| `Sanitize.StripTagsLeavesNoTag` | utils/sanitize.js:17 | no `<…>` tag is left after the tag pass |
| `Sanitize.StripEntitiesLeavesNoEntity` | utils/sanitize.js:18 | no `&…;` entity is left after the entity pass |
| `Sanitize.StripEntitiesKeepsTagFree` | utils/sanitize.js:16-18 | the entity pass creates no new tag in tag-free text |
| `Sanitize.StripMarkupClean` | utils/sanitize.js:16-18 | the stripped text has neither tags nor entities |
| `Sanitize.StripMarkupFixed` | utils/sanitize.js:16-18 | text without tags and entities is left alone |
| `Sanitize.StripHtmlIdempotent` | utils/sanitize.js:13-19 | stripping a stripped string changes nothing |
| `Sanitize.PlainTextIsClean` | utils/sanitize.js:16-18 | text without `<` and `&` has neither tags nor entities |
| `Sanitize.CleanPrefix` | utils/sanitize.js:27-31 | truncating clean text keeps it clean |
| `Sanitize.StripMarkupLower` | utils/sanitize.js:67 | stripping commutes with ASCII lower-casing |
| `Sanitize.TruncateString` | utils/sanitize.js:27-31 | a non-string gives "". Otherwise the result is a prefix of at most `maxLength` characters, and it is the whole string when that fits |
| `Sanitize.KeepAltitudeChars` | utils/sanitize.js:43-44 | only digits, `-` and whitespace remain, and text made of those is unchanged |
| `Sanitize.CleanAltitude` | utils/sanitize.js:38-46 | falsy gives "". Otherwise the result is at most 50 digits, hyphens and spaces and does not start with whitespace |
| `Sanitize.CleanAltitudeFixed` | utils/sanitize.js:38-46 | a cleaned, trimmed altitude of at most 50 characters is a fixed point |
| `Sanitize.CleanAltitudeOfCleaned` | utils/sanitize.js:38-46 | cleaning altitude text again only trims it |
| `Sanitize.CleanAltitudeTwice` | utils/sanitize.js:38-46 | cleaning twice equals trimming the first result, because the cut to 50 after the trim can leave trailing whitespace |
| `Sanitize.FirstContained` | utils/sanitize.js:75-79 | finds the first process name contained in the input, with no earlier one contained |
| `Sanitize.ProcessOf` | utils/sanitize.js:53-82 | the result is always one of the eight processes, and `washed` for a non-string or empty input |
| `Sanitize.ProcessOfChoice` | utils/sanitize.js:65-81 | a non-empty string gives its cleaned text when that is a known process, otherwise the first process it contains with none earlier contained, and `washed` only when it contains none |
| `Sanitize.ValidateProcess` | utils/sanitize.js:53-82 | the loop returns the defined process, which is a valid one |
| `Sanitize.FindContained` | utils/sanitize.js:75-79 | the loop returns the index of the first name contained in the cleaned text |
| `Sanitize.ProcessIgnoresCase` | utils/sanitize.js:65-81 | inputs equal up to case map to the same process |
| `Sanitize.ValidProcessIsFixed` | utils/sanitize.js:53-82 | a valid process name validates to itself |
| `Sanitize.SanitizeTextFields` | utils/sanitize.js:106-112 | the loop over the five text fields builds the defined partial map |
| `Sanitize.CopyPassThroughFields` | utils/sanitize.js:125-130 | the loop copies the five pass-through fields onto the map |
| `Sanitize.SanitizeCoffeeData` | utils/sanitize.js:89-133 | the method returns the defined sanitized object |
| `Sanitize.SanitizedFieldsOf` | utils/sanitize.js:89-133 | a field is kept iff the input is an object, the field is one of the twelve handled ones and its guard holds |
| `Sanitize.SanitizedFieldIsClean` | utils/sanitize.js:97-130 | text fields are clean strings within their limit, `process` is valid, `altitude` is clean, and pass-through fields are copied |
| `Sanitize.SanitizeTwice` | utils/sanitize.js:89-133 | sanitizing twice keeps the same fields and every value except `altitude` |
| `Database.LookupTokenFinds` | db/database.js:196-225 | a hit is a row with that token (and that device when one is given), and a miss means no such row |
| `Database.OfUser` | db/database.js:329-342 | the rows of one user, in order |
| `Database.WithoutUser` | db/database.js:361-368 | exactly the rows of other users remain |
| `Database.InsertNewest` | db/database.js:333 | placing a row in front of the first row that is no newer keeps the timestamps non-increasing and adds exactly that row |
| `Database.SortNewest` | db/database.js:329-342 | one order `ORDER BY created_at DESC` may give: a permutation of the rows with non-increasing timestamps |
| `Database.RewriteAnyOrder` | db/database.js:329-342 | right after a delete-and-reinsert, a listing is newest first iff it is a permutation of the inserted rows |
| `Database.DeleteOnlyThatUser` | db/database.js:361-368 | the delete empties that user's list and leaves every other user's list alone |
| `Database.UpsertHoldsLatest` | routes/coffees.js:151 | after an upsert the user's uid set gains the uid, and that row holds the new data |
| `Database.UpsertKeepsOthers` | routes/coffees.js:151 | an upsert leaves other users' rows alone |
| `Database.ReplaceKeepsListed` | routes/coffees.js:156 | afterwards the user's uids are the old ones intersected with the kept list, and other users are unchanged |
| `Database.RewriteRows` | routes/brews.js:102-107 | a delete-and-reinsert leaves exactly the inserted rows for the user (no uid) and others unchanged |
| `Database.Db.GetDatabase` | db/database.js:166-171 | an error before initialisation, otherwise the open connection |
| `Database.Db.InitDatabase` | db/database.js:21-90 | PostgreSQL in production with a database URL (failing when unreachable), otherwise SQLite |
| `Database.Db.CloseDatabase` | db/database.js:177-187 | the connection is gone, and an open transaction's snapshot is what remains |
| `Database.Db.GetUserByToken` | db/database.js:196-225 | the lookup answer, the device filter applying only to a non-empty device id |
| `Database.Db.CreateUser` | db/database.js:230-248 | appends the user with a fresh positive id, or refuses on a unique clash |
| `Database.Db.UpdateLastLogin` | db/database.js:253-266 | stamps `last_login` of that user only |
| `Database.Db.DeviceExists` | db/database.js:271-286 | whether some user has that device id |
| `Database.Db.BindDevice` | db/database.js:291-304 | binds the device and stamps the login, or refuses when another user holds the device |
| `Database.Db.GetUserCount` | db/database.js:306-310 | the number of users |
| `Database.Db.UsernameExists` | db/database.js:312-327 | whether a user has that name (case-insensitive) |
| `Database.Db.GetUserCoffees` | db/database.js:329-342 | a permutation of the user's rows with non-increasing `created_at`, or an error |
| `Database.Db.SaveCoffee` | db/database.js:344-359 | appends a row, or refuses on the foreign key |
| `Database.Db.DeleteUserCoffees` | db/database.js:361-368 | removes exactly the user's rows |
| `Database.Db.UpsertCoffee` | routes/coffees.js:151 | the user's row with that uid keeps its id and place and takes the new document and the current time, otherwise a row is appended. The foreign key can refuse it |
| `Database.Db.ReplaceUserCoffees` | routes/coffees.js:156 | keeps only the user's rows whose uid is listed |
| `Database.Db.BeginTransaction` | routes/coffees.js:133 | snapshots both tables, or refuses when a transaction is open. A failing `BEGIN` opens none |
| `Database.Db.Commit` | routes/coffees.js:159 | drops the snapshot and keeps the changes. A failing `COMMIT` leaves the transaction open |
| `Database.Db.Rollback` | routes/coffees.js:168 | restores the snapshot. A failing `ROLLBACK` changes nothing |
| `Database.Db.Tick` | db/database.js:109 | time passes between requests: `CURRENT_TIMESTAMP` reads a later instant and no table changes |
| `Database.InsertAll` | server.js:270-274 | inserts the payload up to the first failing statement |
| `Database.SparedFirst` | server.js:268-274 | a run of statements is spared iff its first one is and the rest are |
| `Auth.TokenPrecedence` | middleware/auth.js:12-19 | a Bearer header wins, then a truthy body token, then the query token |
| `Auth.BearerHeaderWins` | middleware/auth.js:15-16 | with a Bearer header the body and query are ignored, and a bare `Bearer ` gives an empty token |
| `Auth.DeviceIdPrecedence` | middleware/auth.js:22 | the device id is the first truthy one of header, body and query |
| `Auth.GetDeviceInfo` | middleware/auth.js:88-102 | mobile iff the agent contains `Mobile`, and the agent is cut to its first 100 characters |
| `Auth.OsIsFirstRule` | middleware/auth.js:91-95 | the OS is the first rule that matches, or `unknown` when none does |
| `Auth.DeviceInfoText` | middleware/auth.js:97-101 | the device info text is a JSON object |
| `Auth.Decide` | middleware/auth.js:35-70 | an admitting verdict names the user found |
| `Auth.DecisionOrder` | middleware/auth.js:35-70 | each of the six verdicts holds exactly under its conditions, checked in source order |
| `Auth.FirstBindKeepsBindings` | middleware/auth.js:66-68 | a first-use bind changes no existing binding |
| `Auth.Check` | middleware/auth.js:31-83 | a refusal is never an admitting verdict |
| `Auth.ChecksAdmit` | middleware/auth.js:31-83 | admission needs a token, a device id, a connection and a row for the token, on its own device or unbound |
| `Auth.ChecksWrites` | middleware/auth.js:58-70 | the only write is the first-use bind, and a refusal writes nothing |
| `Auth.ChecksKeepBindings` | middleware/auth.js:58-70 | a device binding, once made, is never changed by the middleware |
| `Auth.CheckCredentials` | middleware/auth.js:33-70 | the method answers and writes what `Checks` defines, statement by statement |
| `Auth.BindFirstDevice` | middleware/auth.js:66-68 | binds the device unless the statement fails or the device is taken |
| `Auth.AuthenticateUser` | middleware/auth.js:31-83 | calls `next` with the user, or replies with the refusal or with 500, and keeps every binding |
| `Auth.ValidateRejection` | routes/auth.js:21-52 | a refusal has the middleware's status and reports `valid: false` for an unknown token or another device |
| `Auth.ValidateReportsDevice` | routes/auth.js:60-72 | a 200 answer reports the user's id, name and the request's device id |
| `Auth.ValidateKeepsBindings` | routes/auth.js:45-58 | validation never changes an existing binding |
| `Auth.Validate` | routes/auth.js:17-81 | the route answers and writes what `ValidateRun` defines |
| `Auth.ValidateCredentials` | routes/auth.js:19-80 | the same for given credentials |
| `Auth.Answer` | routes/auth.js:58-80 | the answer after the checks: login stamp and body, or 500 |
| `Auth.Login` | routes/auth.js:58-72 | stamps the login and answers the user's body, or 500 |
| `Coffees.HexDigestTrimmed` | routes/coffees.js:17-31 | a hex digest is unchanged by trimming |
| `Coffees.UidIgnoresOtherFields` | routes/coffees.js:17-31 | the uid depends only on the own `id`, or else on the fingerprint fields |
| `Coffees.NormalizeFeedback` | routes/coffees.js:39-60 | the loop builds the defined normalized feedback |
| `Coffees.FeedbackRatingsKnown` | routes/coffees.js:39-60 | a non-object passes through. Known string ratings become `low`, `balanced` or `high`. Other keys are kept and no key is added |
| `Coffees.FeedbackIgnoresCase` | routes/coffees.js:48-52 | a rating is read up to case and surrounding whitespace |
| `Coffees.NormalizeFeedbackIdempotent` | routes/coffees.js:39-60 | normalizing feedback twice equals once |
| `Coffees.LastEntries` | routes/coffees.js:97-99 | `slice(-30)` keeps the last at most 30 entries, and all of them when there are fewer |
| `Coffees.HistoryBounded` | routes/coffees.js:62-100 | an array becomes at most 30 well-shaped entries, and a non-array passes through |
| `Coffees.EntriesKept` | routes/coffees.js:66-96 | every accepted entry is kept, and every kept entry comes from an input one |
| `Coffees.NormalizeHistoryIdempotent` | routes/coffees.js:62-100 | normalizing history twice equals once, for a date library whose ISO rendering is stable |
| `Coffees.PreNormalizedKeepsUid` | routes/coffees.js:140-146 | normalizing feedback does not change the uid |
| `Coffees.StoredDropsFeedback` | routes/coffees.js:140-151 | the stored document holds no `feedback` or `feedbackHistory` |
| `Coffees.PreparedDocs` | routes/coffees.js:139-151 | the loop's per-coffee preparation agrees with the defined documents |
| `Coffees.LatestFound` | routes/coffees.js:139-152 | a payload's last document for a uid exists iff the uid is in the payload |
| `Coffees.SavedValid` | routes/coffees.js:139-152 | upserting the payload keeps the table invariant |
| `Coffees.SavedUids` | routes/coffees.js:139-152 | upserting adds exactly the payload's uids |
| `Coffees.SavedOthers` | routes/coffees.js:139-152 | upserting leaves other users alone |
| `Coffees.SavedLatest` | routes/coffees.js:139-152 | every upserted row holds the payload's last document for its uid |
| `Coffees.PostMirrorsPayload` | routes/coffees.js:133-159 | after a committed sync the user's uids are the payload's and each row holds the latest document. Uids stay unique and other users are unchanged |
| `Coffees.EmptyPayloadClears` | routes/coffees.js:138-156 | an empty payload leaves the user no rows |
| `Coffees.Listing` | routes/coffees.js:108-112 | one listed document per row, in order |
| `Coffees.ListedDocument` | routes/coffees.js:108-112 | the listed `id` is the uid or else the row id, `savedAt` is the row time, and other fields come from the data |
| `Coffees.GetThenPostKeepsUid` | routes/coffees.js:17-31 | posting back a listed coffee gives it the same uid |
| `Coffees.ListedKeepsUid` | routes/coffees.js:108-112 | a listed coffee hashes to its row's uid |
| `Coffees.ListCoffees` | routes/coffees.js:102-126 | stamps the login, then lists a newest-first permutation of the user's rows, or 500 |
| `Coffees.SaveDocument` | routes/coffees.js:146-151 | upserts one prepared document, or fails without change |
| `Coffees.SaveEntry` | routes/coffees.js:139-152 | one pass of the loop: the upsert succeeds iff its statement and the foreign key do, and then the rows and uids grow by that entry |
| `Coffees.SaveAll` | routes/coffees.js:138-153 | upserts the whole payload and collects its uids, unless a statement fails |
| `Coffees.SaveThenReplace` | routes/coffees.js:139-156 | the upserts and `replaceUserCoffees` give the defined rows iff none of them fails and the foreign key holds |
| `Coffees.SaveInTransaction` | routes/coffees.js:133-170 | commits the defined rows iff every statement up to `COMMIT` succeeds. Otherwise the table is unchanged and the transaction is rolled back, or left open when the `ROLLBACK` fails |
| `Coffees.SaveCoffees` | routes/coffees.js:128-179 | 200 with the saved count and the defined rows, or 500 with the table unchanged |
| `Brews.UpdatesHold` | routes/brews.js:33-38 | a field is updated iff it is allowed and defined in the body, with its cleaned value |
| `Brews.SanitizeUpdates` | routes/brews.js:30-38 | the loop builds the defined updates |
| `Brews.UpdatesAreClean` | routes/brews.js:33-38 | each update is at most 200 characters with no tags or entities |
| `Brews.LastMatch` | routes/brews.js:57-75 | the last row matching by id, `savedAt` or index, with none after it, or no match at all |
| `Brews.ParseCoffees` | routes/brews.js:57-75 | the loop parses every row and finds the last match. It throws iff some document is `null` or `undefined` and its row id does not match, because the `\|\|` reads `data.savedAt` only after the row-id test |
| `Brews.NamedNullPatched` | routes/brews.js:65-71 | a `null` document named by its row id is patched, not refused: the answer is the edited name with the row's id and time |
| `Brews.EditedFields` | routes/brews.js:84-94 | `coffee_name` goes to `name`, and `origin`/`roastery` to themselves. Every other field is kept |
| `Brews.SavedDocs` | routes/brews.js:103-106 | one saved document per coffee |
| `Brews.PlanEditsOnlyTarget` | routes/brews.js:57-94 | only the target coffee changes, and the answer carries its row id and time |
| `Brews.RetargetShape` | routes/brews.js:59-94 | a rewrite aimed at one row keeps one coffee per loaded row in order, edits only that row, and answers with it carrying the row id and time |
| `Brews.StoredLacksRuntimeFields` | routes/brews.js:103-106 | saved documents lose `id` and `savedAt` and keep every other field |
| `Brews.RewriteAll` | routes/brews.js:102-107 | deletes and re-inserts all documents, unless a statement fails |
| `Brews.RewriteInTransaction` | routes/brews.js:96-112 | commits the rewrite iff `BEGIN`, every statement and `COMMIT` succeed. A `ROLLBACK` that fails after the delete leaves the transaction open with the user's rows deleted. Otherwise the table is as before |
| `Brews.EditTarget` | routes/brews.js:84-94 | the target takes `coffee_name` as `name`, `origin` and `roastery`, and keeps every other field |
| `Brews.RewriteTarget` | routes/brews.js:84-112 | edits the target and rewrites the user's coffees, answering 200 with the edited coffee or 500 as the rewrite goes |
| `Brews.PatchRows` | routes/brews.js:57-127 | answers and writes what the patch plan says |
| `Brews.PatchBrew` | routes/brews.js:23-128 | 400 without valid fields and 500 on a failed load. Otherwise the patch plan's answer and rows |
| `Register.GenerateToken` | routes/register.js:13-20 | the loop builds the defined token from six random draws |
| `Register.AlphabetUnambiguous` | routes/register.js:14 | 32 characters, upper-case letters or digits 2-9, none of `I`, `O`, `0`, `1` |
| `Register.TokensWellFormed` | routes/register.js:13-20 | every token is `BREW-` and six alphabet characters, 11 long, with no ambiguous character |
| `Register.RegistrationOf` | routes/register.js:194-196 | the registration found has that e-mail, and a miss means there is none |
| `Register.Registry.IsWhitelisted` | routes/register.js:186-188 | whether the e-mail is whitelisted, or an error |
| `Register.Registry.FindRegistration` | routes/register.js:194-196 | the e-mail's registration, or an error |
| `Register.Registry.HasToken` | routes/register.js:208-210 | whether the token is taken, or an error |
| `Register.Registry.Insert` | routes/register.js:215-219 | appends the unused registration, or an error |
| `Register.Chosen` | routes/register.js:204-213 | the attempt where the retries stop: every earlier candidate is taken, and the chosen one is free unless it is the tenth |
| `Register.ChooseToken` | routes/register.js:204-213 | the loop picks the defined candidate after that many lookups, unless one fails |
| `Register.NormalizedEmail` | routes/register.js:176-180 | an accepted e-mail contains `@` and is stored lower-cased and trimmed |
| `Register.RegisterEmail` | routes/register.js:182-228 | answers, writes and mails what `Expected` defines |
| `Register.RegisterUser` | routes/register.js:173-229 | an unreadable body escapes the handler, and no `@` gives 400. Otherwise the registration outcome |
| `Register.NotWhitelistedRefused` | routes/register.js:190-192 | an e-mail that is not whitelisted gets 403 and nothing is written |
| `Register.ExistingTokenResent` | routes/register.js:198-202 | a known e-mail gets its old token mailed again, with 200 iff the mail goes out |
| `Register.NewTokenIssued` | routes/register.js:204-224 | a new well-formed token is stored and mailed. It is taken only if all ten candidates were |
| `Register.ExhaustedRetriesDuplicate` | routes/register.js:204-219 | when all ten candidates are taken, the stored token duplicates an existing one |
| `LegacyServer.CheckUsername` | server.js:116-121 | an accepted name is at least 2 characters |
| `LegacyServer.UsernameAccepted` | server.js:114-121 | accepted iff the name is a string whose trim is at least 2 long. The check throws exactly for a missing body or a truthy non-string |
| `LegacyServer.SignupKeepsCap` | server.js:123-143 | sign-up adds at most the new tester, and only below 10 testers with a free name and token, so the count never passes 10 |
| `LegacyServer.SignupSucceeds` | server.js:112-153 | 200 iff the four statements succeed, there are fewer than 10 testers, and the name and token are free. The body reports the spots left |
| `LegacyServer.SignupFailsAfterCreate` | server.js:141-143 | a failing second count answers 500 after the user was created |
| `LegacyServer.SignUp` | server.js:123-161 | the sign-up statements answer and write what `LegacySignup` defines |
| `LegacyServer.RegisterName` | server.js:123-161 | the same, and 500 when not connected |
| `LegacyServer.LegacyRegister` | server.js:112-162 | a refused name answers 400 or 500 without a write. Otherwise the sign-up outcome |
| `LegacyServer.LegacyValidationIgnoresDevice` | server.js:175-193 | the legacy lookup finds a user by token whatever their device |
| `LegacyServer.LegacyValidationRefusesUnknown` | server.js:177-183 | an unknown token gets 401 with `valid: false` |
| `LegacyServer.LegacyValidate` | server.js:164-202 | 400 without a token, 500 on failure, otherwise the lookup's answer, and nothing is written |
| `LegacyServer.LegacyListing` | server.js:229-233 | one listed document per row, in order |
| `LegacyServer.LegacyListedDocument` | server.js:229-233 | `savedAt` is the row time, `id` is the row id unless the data has one, and other fields come from the data |
| `LegacyServer.LegacyListCoffees` | server.js:208-247 | 401 without a token or for an unknown one, otherwise a newest-first permutation of the user's rows, or 500 |
| `LegacyServer.LegacyReplace` | server.js:268-279 | delete, then insert item by item, answering what the replacement relation says |
| `LegacyServer.LegacySaveCoffees` | server.js:249-288 | 401 without a token or for an unknown one, otherwise the non-atomic replacement |
| `LegacyServer.LegacySyncMirrors` | server.js:268-279 | a sync without failures leaves the user exactly the payload's rows, others unchanged |
| `LegacyServer.LegacySyncLosesRows` | server.js:268-287 | a failure after the delete leaves only a proper prefix of the payload |
| `LegacyServer.LegacySyncThenList` | server.js:227-233 | a listing right after a sync is a permutation of the inserted rows: one row per posted entry `j`, with id `n + j`, and nothing else |
| `LegacyServer.InsertedAnyOrder` | server.js:270-274 | any permutation of the inserted rows holds entry `j`'s row, and only such rows |
| `LegacyServer.TrimAll` | server.js:69 | every origin is trimmed |
| `LegacyServer.BuildAllowedOrigins` | server.js:68-76 | the configured origins, followed by the three local ones in development |
| `LegacyServer.CorsCheck` | server.js:78-92 | a request passes iff it has no origin or a listed one, and otherwise the error handler answers 500 |
| `LegacyServer.ConfiguredOriginsAllowed` | server.js:68-82 | each configured origin, given trimmed and comma-free, is admitted |
| `LegacyServer.UnconfiguredRefusesOrigins` | server.js:68-86 | without configuration and outside development only a request with no origin passes |
| `LegacyServer.DevelopmentAllowsLocal` | server.js:72-82 | in development the three local origins are admitted |

## Left out

- SHA-1, `JSON.stringify`/`JSON.parse`, `Date` validity and `toISOString`, `randomBytes` and `uuidv4` become parameters. They are an oracle function, the model's own structural encoding, a date library record, a byte stream and a given token. The hashes, the JSON text format (including the key order of a serialized object) and the date arithmetic are not modelled.
- `toLowerCase` and SQL `LOWER` are ASCII only, and string lengths count characters, not UTF-16 code units. Unicode case mapping and surrogate pairs are not modelled.
- `CURRENT_TIMESTAMP` is a clock that stands still within a request and advances only by `Db.Tick` between requests. Wall-clock values, their text format, and a request whose writes straddle a clock tick are not modelled.
- Concurrency is not modelled: the store sees one request at a time. Two interleaved sign-ups, for example, could exceed ten testers in the real server but cannot in the model.
- The PostgreSQL `COUNT` type (a string in `pg`) is not modelled. The count is a number.
- SQL text, parameter binding and the differences between the two drivers are not modelled. Each query is modelled by its effect on the tables.
- The transaction helpers and the uid-keyed `saveCoffee` and `replaceUserCoffees` are not defined in `db/database.js`. Their behaviour is assumed, as listed under "Where the model departs from the code", and so is the `coffee_uid` column that `getUserCoffees` does not select.
- Schema creation and migration in `initDatabase` are not modelled (`db/database.js:95-163`). Their constraints are stated as the table invariant in `Db.Valid`.
- `sendTokenMail` is an outcome (`mailDelivers`) plus the mail that would be sent. The Resend HTTP call, the template and `RESEND_API_KEY` handling are not modelled (`routes/register.js:22-170`).
- The whitelist and registration tables are a separate class, `Register.Registry`, over the same connection handle. Statements on them and on `Db` are not interleaved by a handler.
- Errors that escape a handler (an unreadable body in `routes/register.js`) end as `Unhandled`. Express's default handler is not modelled.
- The `express.json` size limit, rate limiting, the 404 handler and logging are not modelled.
- The inline `POST /api/analyze-coffee` (`server.js:294-382`) and `GET /api/health` (`server.js:388-396`) handlers of `server.js` are not modelled. The routers in `routes/` for analysis, grinders, methods, water hardness and health are not mounted by `server.js` and are not part of this model.
- `registrations` is taken to have no `UNIQUE(token)` constraint, so a duplicate token is stored. With such a constraint the exhausted-retries path would answer 500 instead.
- `JsValue.Get`: array and string index properties (`v[0]`) are not read. Only `length` is.
- `Coffees.Visited`: `Number(length) > 0` is read from the literal's digits. A decimal literal that underflows to zero, such as `"1e-400"`, counts as positive here. Objects with their own `toString` or `valueOf` are not modelled, here or in `JsValue.ToJsString`.
- `Sanitize.CleanAltitude`: it is not idempotent, because the 50-character cut after the trim can leave trailing whitespace. The model proves the exact relation (`CleanAltitudeTwice`) rather than idempotence.
