/**
 * The partial update of one coffee (`PATCH /api/brews/:id`, routes/brews.js): sanitise the
 * patchable fields of the request, load the user's coffees, find the one `id` names, apply
 * the fields to it, and rewrite all of the user's coffees in a transaction.
 *
 * The authenticated user comes from `authenticateUser` (module Auth); the handler is given
 * its row. The rewrite uses the two-argument `saveCoffee` of db/database.js, so the rows it
 * inserts carry no uid.
 */
module Brews {
  import opened Wrappers
  import opened Text
  import opened JsValue
  import opened Sanitize
  import opened Database
  import opened Auth

  /** The request fields a patch may set, in the order the handler reads them. */
  const AllowedFields: seq<string> := ["coffee_name", "origin", "roastery"]

  /** The longest value a patched field keeps. */
  const MaxFieldLength: nat := 200

  /** The answer of the outer `catch`. */
  const InternalError := Response(500, ErrorBody("Internal server error"))

  // ---------------------------------------------------------------------------
  // The sanitised updates
  // ---------------------------------------------------------------------------

  /** One patched value: turned into a string, trimmed, stripped of markup and truncated. */
  function CleanUpdate(v: Value): string {
    CleanText(Str(Trim(ToJsString(v))), MaxFieldLength)
  }

  /** `sanitizedUpdates` after reading `fields` in order: each field the body defines, with its
      cleaned value. */
  function Updates(body: Value, fields: seq<string>): map<string, string>
    decreases |fields|
  {
    if fields == [] then map[]
    else
      var prev, f := Updates(body, fields[..|fields| - 1]), fields[|fields| - 1];
      if Get(body, f).Undefined? then prev else prev[f := CleanUpdate(Get(body, f))]
  }

  /** Reading one more field adds it exactly when the body defines it. */
  lemma UpdatesStep(body: Value, fields: seq<string>, f: string)
    ensures Updates(body, fields + [f]) ==
      (if Get(body, f).Undefined? then Updates(body, fields) else Updates(body, fields)[f := CleanUpdate(Get(body, f))])
  {
    assert (fields + [f])[..|fields|] == fields;
  }

  /** The updates hold exactly the fields read that the body defines, each with its cleaned value. */
  lemma {:induction false} UpdatesHold(body: Value, fields: seq<string>)
    ensures forall f :: f in Updates(body, fields) <==> f in fields && !Get(body, f).Undefined?
    ensures forall f :: f in Updates(body, fields) ==> Updates(body, fields)[f] == CleanUpdate(Get(body, f))
    decreases |fields|
  {
    if fields != [] {
      var init := fields[..|fields| - 1];
      var last := fields[|fields| - 1];
      UpdatesHold(body, init);
      assert fields == init + [last];
      UpdatesStep(body, init, last);
      assert forall f :: f in fields <==> f in init || f == last;
    }
  }

  /** The loop that fills `sanitizedUpdates`. */
  method SanitizeUpdates(body: Value, fields: seq<string>) returns (updates: map<string, string>)
    ensures updates == Updates(body, fields)
  {
    updates := map[];
    for k := 0 to |fields|
      invariant updates == Updates(body, fields[..k])
    {
      var f := fields[k];
      assert fields[..k + 1] == fields[..k] + [f];
      UpdatesStep(body, fields[..k], f);
      if !Get(body, f).Undefined? {
        updates := updates[f := CleanUpdate(Get(body, f))];
      }
    }
    assert fields[..|fields|] == fields;
  }

  /**
   * The updates hold exactly the allowed fields the body defines, and every value is at most
   * 200 characters long and free of tags and character references.
   */
  lemma UpdatesAreClean(body: Value)
    ensures forall f :: f in Updates(body, AllowedFields) <==> f in AllowedFields && !Get(body, f).Undefined?
    ensures forall f :: f in Updates(body, AllowedFields) ==>
      (|Updates(body, AllowedFields)[f]| <= MaxFieldLength
       && TagFree(Updates(body, AllowedFields)[f]) && EntityFree(Updates(body, AllowedFields)[f]))
  {
    var u := Updates(body, AllowedFields);
    UpdatesHold(body, AllowedFields);
    forall f | f in u
      ensures |u[f]| <= MaxFieldLength && TagFree(u[f]) && EntityFree(u[f])
    {
      CleanTextIsClean(Str(Trim(ToJsString(Get(body, f)))), MaxFieldLength);
    }
  }

  // ---------------------------------------------------------------------------
  // Finding the target
  // ---------------------------------------------------------------------------

  /** Row `idx` of the loaded rows is one `id` names: by row id, by the stored document's
      `savedAt`, or by position, each compared as a string. */
  predicate Matches(row: CoffeeRow, idx: nat, id: string) {
    NatToString(row.id) == id || ToJsString(Get(row.data, "savedAt")) == id || NatToString(idx) == id
  }

  /** The last of the first `n` rows that `id` names: a later match overrides an earlier one. */
  function LastMatch(rows: seq<CoffeeRow>, id: string, n: nat): (k: Option<nat>)
    requires n <= |rows|
    ensures k.Some? ==> k.value < n && Matches(rows[k.value], k.value, id)
    ensures k.Some? ==> forall j :: k.value < j < n ==> !Matches(rows[j], j, id)
    ensures k.None? <==> forall j :: 0 <= j < n ==> !Matches(rows[j], j, id)
  {
    if n == 0 then None
    else if Matches(rows[n - 1], n - 1, id) then Some(n - 1)
    else LastMatch(rows, id, n - 1)
  }

  /** One more row either is the new last match or leaves the last match as it was. */
  lemma LastMatchStep(rows: seq<CoffeeRow>, id: string, n: nat)
    requires n < |rows|
    ensures LastMatch(rows, id, n + 1) == if Matches(rows[n], n, id) then Some(n) else LastMatch(rows, id, n)
  {
  }

  /** `coffeeIndex` for a match: its position, or -1. */
  function IndexOf(k: Option<nat>): int {
    if k.Some? then k.value else -1
  }

  /** Reading `data.savedAt` throws for a `null` document. The `||` reads it only when the
      row id did not match already, so a document the row id names never throws. */
  predicate Readable(row: CoffeeRow, id: string) {
    NatToString(row.id) == id || (!row.data.Null? && !row.data.Undefined?)
  }

  /** A loaded row as the handler holds it: `{ ...data, id: row.id, savedAt: row.created_at }`. */
  function Parsed(row: CoffeeRow): map<string, Value> {
    SpreadOf(row.data)["id" := NumberOf(row.id)]["savedAt" := Str(NatToString(row.createdAt))]
  }

  /** The `map` over the loaded rows: parse each one and remember the last that `id` names;
      `ok` is false when a document cannot be read, which throws. */
  method ParseCoffees(rows: seq<CoffeeRow>, id: string) returns (parsed: seq<map<string, Value>>, coffeeIndex: int, ok: bool)
    ensures ok <==> forall i :: 0 <= i < |rows| ==> Readable(rows[i], id)
    ensures ok ==> |parsed| == |rows| && forall i :: 0 <= i < |rows| ==> parsed[i] == Parsed(rows[i])
    ensures ok ==> coffeeIndex == IndexOf(LastMatch(rows, id, |rows|))
  {
    parsed, coffeeIndex := [], -1;
    for i := 0 to |rows|
      invariant |parsed| == i
      invariant forall j :: 0 <= j < i ==> parsed[j] == Parsed(rows[j])
      invariant forall j :: 0 <= j < i ==> Readable(rows[j], id)
      invariant coffeeIndex == IndexOf(LastMatch(rows, id, i))
    {
      if !Readable(rows[i], id) {
        return parsed, coffeeIndex, false;
      }
      var coffee;
      coffee, coffeeIndex := ParseRow(rows, id, i, coffeeIndex);
      parsed := parsed + [coffee];
    }
    ok := true;
  }

  /** One call of the `map` callback, for a row whose document can be read. */
  method ParseRow(rows: seq<CoffeeRow>, id: string, i: nat, coffeeIndex: int) returns (coffee: map<string, Value>, index: int)
    requires i < |rows| && coffeeIndex == IndexOf(LastMatch(rows, id, i))
    ensures coffee == Parsed(rows[i]) && index == IndexOf(LastMatch(rows, id, i + 1))
  {
    LastMatchStep(rows, id, i);
    index := if Matches(rows[i], i, id) then i else coffeeIndex;
    coffee := Parsed(rows[i]);
  }

  // ---------------------------------------------------------------------------
  // Editing and storing
  // ---------------------------------------------------------------------------

  /** The fields of a coffee a patch may overwrite: `coffee_name` is stored as `name`. */
  function Destination(field: string): string {
    if field == "coffee_name" then "name" else field
  }

  /** The target after the three assignments of the handler. */
  function Edited(coffee: map<string, Value>, updates: map<string, string>): map<string, Value> {
    var named := if "coffee_name" in updates then coffee["name" := Str(updates["coffee_name"])] else coffee;
    var placed := if "origin" in updates then named["origin" := Str(updates["origin"])] else named;
    if "roastery" in updates then placed["roastery" := Str(updates["roastery"])] else placed
  }

  /**
   * The edit sets `name`, `origin` and `roastery` from the updates that hold them, adds no
   * other field and leaves every other field as it was.
   */
  lemma EditedFields(coffee: map<string, Value>, updates: map<string, string>)
    ensures forall f :: f in AllowedFields && f in updates ==>
      Destination(f) in Edited(coffee, updates) && Edited(coffee, updates)[Destination(f)] == Str(updates[f])
    ensures forall g :: g in Edited(coffee, updates) <==>
      g in coffee || (g == "name" && "coffee_name" in updates) || (g in ["origin", "roastery"] && g in updates)
    ensures forall g :: g in coffee && g !in ["name", "origin", "roastery"] ==> Edited(coffee, updates)[g] == coffee[g]
    ensures forall g :: g in ["name", "origin", "roastery"] && g in coffee && Source(g) !in updates ==>
      Edited(coffee, updates)[g] == coffee[g]
  {
  }

  /** The update a stored field takes its value from. */
  function Source(field: string): string {
    if field == "name" then "coffee_name" else field
  }

  /** `const { id, savedAt, ...dataToSave } = c`: what the rewrite stores for `c`. */
  function ToSave(c: map<string, Value>): Value {
    Obj(c - {"id", "savedAt"})
  }

  /** The documents the rewrite stores, one per coffee in order. */
  function SavedDocs(coffees: seq<map<string, Value>>): (docs: seq<Value>)
    ensures |docs| == |coffees|
  {
    seq(|coffees|, i requires 0 <= i < |coffees| => ToSave(coffees[i]))
  }

  /** What the handler does with the loaded rows: answer, or rewrite the user's coffees with
      `coffees` and answer with `coffee`. */
  datatype Plan = Refuse(response: Response) | Rewrite(coffees: seq<map<string, Value>>, coffee: map<string, Value>)

  /** The plan for the rows `getUserCoffees` returned, newest first. */
  function PlanFor(rows: seq<CoffeeRow>, id: string, updates: map<string, string>): Plan {
    if rows == [] then Refuse(Response(404, ErrorBody("No coffees found for user")))
    else if exists i :: 0 <= i < |rows| && !Readable(rows[i], id) then Refuse(InternalError)
    else match LastMatch(rows, id, |rows|)
      case None => Refuse(Response(404, ErrorBody("Coffee not found")))
      case Some(k) => Retarget(rows, k, updates)
  }

  /** A `null` document is patched, not refused, when its row id is the one named: the
      answer is the coffee with just the edited name and the row's id and time. */
  lemma NamedNullPatched()
    ensures PlanFor([CoffeeRow(5, 1, None, Null, 0)], "5", map["coffee_name" := "x"])
         == Retarget([CoffeeRow(5, 1, None, Null, 0)], 0, map["coffee_name" := "x"])
    ensures Retarget([CoffeeRow(5, 1, None, Null, 0)], 0, map["coffee_name" := "x"]).coffee
         == map["id" := NumberOf(5), "savedAt" := Str("0"), "name" := Str("x")]
  {
    var rows := [CoffeeRow(5, 1, None, Null, 0)];
    assert NatToString(5) == "5" && NatToString(0) == "0";
    assert Readable(rows[0], "5") && Matches(rows[0], 0, "5");
    assert LastMatch(rows, "5", 1) == Some(0);
  }

  /** Rewrite every loaded row as parsed, with row `k` edited, and answer with the edited one. */
  function Retarget(rows: seq<CoffeeRow>, k: nat, updates: map<string, string>): Plan
    requires k < |rows|
  {
    var coffee := Edited(Parsed(rows[k]), updates);
    Rewrite(seq(|rows|, i requires 0 <= i < |rows| => if i == k then coffee else Parsed(rows[i])), coffee)
  }

  /** The answer of a patch that commits. */
  function PatchedBody(coffee: map<string, Value>): Value {
    Obj(map["success" := Bool(true), "coffee" := Obj(coffee)])
  }

  /**
   * A rewrite keeps one coffee per loaded row, in order; only the target is edited, and the
   * answered coffee carries the target row's id and timestamp.
   */
  lemma PlanEditsOnlyTarget(rows: seq<CoffeeRow>, id: string, updates: map<string, string>, k: nat)
    requires PlanFor(rows, id, updates).Rewrite? && k == LastMatch(rows, id, |rows|).value
    ensures k < |rows| && PlanFor(rows, id, updates) == Retarget(rows, k, updates)
    ensures |Retarget(rows, k, updates).coffees| == |rows|
    ensures forall i :: 0 <= i < |rows| && i != k ==> Retarget(rows, k, updates).coffees[i] == Parsed(rows[i])
    ensures Retarget(rows, k, updates).coffees[k] == Retarget(rows, k, updates).coffee == Edited(Parsed(rows[k]), updates)
    ensures Get(Obj(Retarget(rows, k, updates).coffee), "id") == NumberOf(rows[k].id)
    ensures Get(Obj(Retarget(rows, k, updates).coffee), "savedAt") == Str(NatToString(rows[k].createdAt))
  {
    RetargetShape(rows, k, updates);
  }

  /** The shape of a rewrite aimed at row `k`, whichever plan chose it. */
  lemma RetargetShape(rows: seq<CoffeeRow>, k: nat, updates: map<string, string>)
    requires k < |rows|
    ensures |Retarget(rows, k, updates).coffees| == |rows|
    ensures forall i :: 0 <= i < |rows| && i != k ==> Retarget(rows, k, updates).coffees[i] == Parsed(rows[i])
    ensures Retarget(rows, k, updates).coffees[k] == Retarget(rows, k, updates).coffee == Edited(Parsed(rows[k]), updates)
    ensures Get(Obj(Retarget(rows, k, updates).coffee), "id") == NumberOf(rows[k].id)
    ensures Get(Obj(Retarget(rows, k, updates).coffee), "savedAt") == Str(NatToString(rows[k].createdAt))
  {
    var p := Parsed(rows[k]);
    assert "id" in p && "savedAt" in p;
    assert p["id"] == NumberOf(rows[k].id);
    EditedFields(p, updates);
  }

  /** No stored document keeps an `id` or a `savedAt`: a document's own values of these two
      fields do not survive a patch. */
  lemma StoredLacksRuntimeFields(coffees: seq<map<string, Value>>)
    ensures forall i :: 0 <= i < |coffees| ==>
      SavedDocs(coffees)[i].Obj? && Get(SavedDocs(coffees)[i], "id").Undefined? && Get(SavedDocs(coffees)[i], "savedAt").Undefined?
    ensures forall i, f :: 0 <= i < |coffees| && f in coffees[i] && f != "id" && f != "savedAt" ==>
      Get(SavedDocs(coffees)[i], f) == coffees[i][f]
  {
  }

  /** The rewrite commits: no transaction was open, none of `BEGIN`, the delete, the inserts
      and `COMMIT` fails, and the foreign key accepts the user's rows when there is something
      to insert. */
  predicate RewriteCommits(inTransaction: bool, failAt: Option<nat>, calls: nat, foreignKeyFails: bool, count: nat) {
    !inTransaction && Spared(failAt, calls, count + 3) && (count > 0 ==> !foreignKeyFails)
  }

  /** The first insert breaks the foreign key after the delete went through, and the
      `ROLLBACK` that follows is the statement that fails: the transaction stays open with the
      user's rows deleted. */
  predicate RewriteLeftOpen(inTransaction: bool, failAt: Option<nat>, calls: nat, foreignKeyFails: bool, count: nat) {
    !inTransaction && count > 0 && foreignKeyFails && failAt == Some(calls + 3)
  }

  /** The open transaction is as it was, or the last statement failed and left one open. */
  predicate SnapshotKept(before: Option<Tables>, after: Option<Tables>, failAt: Option<nat>, calls: nat) {
    after == before || (after.Some? && failAt.Some? && failAt.value + 1 == calls)
  }

  /**
   * Carrying out `plan` for `userId` answers `res` and leaves the coffee table `after`, from a
   * table `before` whose next row id and timestamp are `n` and `t` and whose next statement is
   * number `calls`: a refusal changes nothing; a rewrite that commits answers the edited
   * coffee and replaces the user's rows by the stored documents; one that does not answers
   * 500 and changes nothing, unless its `ROLLBACK` fails after the delete.
   */
  predicate Carried(plan: Plan, userId: nat, inTransaction: bool, failAt: Option<nat>, calls: nat, foreignKeyFails: bool,
                    before: seq<CoffeeRow>, n: nat, t: nat, res: Response, after: seq<CoffeeRow>) {
    match plan
    case Refuse(response) => res == response && after == before
    case Rewrite(coffees, coffee) =>
      if RewriteCommits(inTransaction, failAt, calls, foreignKeyFails, |coffees|) then
        res == Response(200, PatchedBody(coffee)) && after == WithoutUser(before, userId) + Inserted(userId, SavedDocs(coffees), n, t)
      else if RewriteLeftOpen(inTransaction, failAt, calls, foreignKeyFails, |coffees|) then
        res == InternalError && after == WithoutUser(before, userId)
      else
        res == InternalError && after == before
  }

  // ---------------------------------------------------------------------------
  // The handler
  // ---------------------------------------------------------------------------

  /** The body of the transaction's `try`: `deleteUserCoffees`, then `saveCoffee` for every
      stored document in order, stopping at the first statement that fails. */
  method RewriteAll(db: Db, userId: nat, docs: seq<Value>) returns (ok: bool)
    requires db.Valid() && db.handle.Some?
    modifies db
    ensures db.Valid() && db.handle == old(db.handle) && db.snapshot == old(db.snapshot) && db.failAt == old(db.failAt)
    ensures db.users == old(db.users) && db.clock == old(db.clock)
    ensures ok <==> Spared(old(db.failAt), old(db.calls), |docs| + 1) && (docs != [] ==> !ForeignKeyRejects(old(db.handle), old(db.users), userId))
    ensures ok ==> (db.calls == old(db.calls) + |docs| + 1
      && db.coffees == WithoutUser(old(db.coffees), userId) + Inserted(userId, docs, old(db.nextCoffeeId), old(db.clock)))
    ensures !ok && docs != [] && ForeignKeyRejects(old(db.handle), old(db.users), userId) ==>
      (old(db.failAt) == Some(old(db.calls)) && db.calls == old(db.calls) + 1 && db.coffees == old(db.coffees))
      || (db.calls == old(db.calls) + 2 && db.coffees == WithoutUser(old(db.coffees), userId))
    ensures !ok && !(docs != [] && ForeignKeyRejects(old(db.handle), old(db.users), userId)) ==> db.failAt == Some(db.calls - 1)
  {
    ghost var c0 := db.calls;
    var deleted := db.DeleteUserCoffees(userId);
    if deleted.Err? {
      return false;
    }
    ghost var cleared := db.coffees;
    ok := InsertAll(db, userId, docs);
    if ok {
      assert docs[..|docs|] == docs;
    } else if docs != [] && ForeignKeyRejects(old(db.handle), old(db.users), userId) {
      assert docs[..0] == [];
      assert db.coffees == cleared + Inserted(userId, [], db.nextCoffeeId, db.clock);
    }
    SparedFirst(db.failAt, c0, |docs|);
  }

  /** `beginTransaction`, the rewrite, then `commit`; a failing statement rolls back. */
  method RewriteInTransaction(db: Db, userId: nat, coffees: seq<map<string, Value>>) returns (ok: bool)
    requires db.Valid() && db.handle.Some?
    modifies db
    ensures db.Valid() && db.handle == old(db.handle) && db.users == old(db.users)
    ensures ok <==> RewriteCommits(old(db.snapshot).Some?, old(db.failAt), old(db.calls), ForeignKeyRejects(old(db.handle), old(db.users), userId), |coffees|)
    ensures ok ==> (db.snapshot.None?
      && db.coffees == WithoutUser(old(db.coffees), userId) + Inserted(userId, SavedDocs(coffees), old(db.nextCoffeeId), old(db.clock)))
    ensures !ok && RewriteLeftOpen(old(db.snapshot).Some?, old(db.failAt), old(db.calls), ForeignKeyRejects(old(db.handle), old(db.users), userId), |coffees|) ==>
      db.snapshot == Some(old(db.Contents())) && db.coffees == WithoutUser(old(db.coffees), userId) && db.failAt == Some(db.calls - 1)
    ensures !ok && !RewriteLeftOpen(old(db.snapshot).Some?, old(db.failAt), old(db.calls), ForeignKeyRejects(old(db.handle), old(db.users), userId), |coffees|) ==>
      db.snapshot == old(db.snapshot) && db.coffees == old(db.coffees)
  {
    ghost var failAt, c0 := db.failAt, db.calls;
    var begun := db.BeginTransaction();
    if begun.Err? {
      return false;
    }
    var rewritten := RewriteAll(db, userId, SavedDocs(coffees));
    if !rewritten {
      var rolledBack := db.Rollback();
      return false;
    }
    SparedStep(failAt, c0 + 1, |coffees| + 1);
    var committed := db.Commit();
    if committed.Err? {
      var rolledBack := db.Rollback();
      return false;
    }
    SparedFirst(failAt, c0, |coffees| + 2);
    ok := true;
  }

  /** The handler from the loaded rows on: find the target, edit it and rewrite the user's coffees. */
  method PatchRows(db: Db, userId: nat, rows: seq<CoffeeRow>, id: string, updates: map<string, string>) returns (res: Response)
    requires db.Valid() && db.handle.Some?
    modifies db
    ensures db.Valid() && db.handle == old(db.handle) && db.users == old(db.users)
    ensures SnapshotKept(old(db.snapshot), db.snapshot, db.failAt, db.calls)
    ensures Carried(PlanFor(rows, id, updates), userId, old(db.snapshot).Some?, old(db.failAt), old(db.calls),
      ForeignKeyRejects(old(db.handle), old(db.users), userId), old(db.coffees), old(db.nextCoffeeId), old(db.clock), res, db.coffees)
  {
    if rows == [] {
      return Response(404, ErrorBody("No coffees found for user"));
    }
    var parsed, coffeeIndex, readable := ParseCoffees(rows, id);
    if !readable {
      assert PlanFor(rows, id, updates) == Refuse(InternalError);
      return InternalError;
    }
    if coffeeIndex == -1 {
      assert LastMatch(rows, id, |rows|).None?;
      return Response(404, ErrorBody("Coffee not found"));
    }
    assert LastMatch(rows, id, |rows|) == Some(coffeeIndex as nat);
    assert PlanFor(rows, id, updates) == Retarget(rows, coffeeIndex, updates);
    res := RewriteTarget(db, userId, rows, coffeeIndex, parsed, updates);
  }

  /** Edit the target `k` of the parsed rows and rewrite them all. */
  method RewriteTarget(db: Db, userId: nat, rows: seq<CoffeeRow>, k: nat, parsed: seq<map<string, Value>>, updates: map<string, string>)
    returns (res: Response)
    requires db.Valid() && db.handle.Some? && k < |rows| == |parsed|
    requires forall i :: 0 <= i < |rows| ==> parsed[i] == Parsed(rows[i])
    modifies db
    ensures db.Valid() && db.handle == old(db.handle) && db.users == old(db.users)
    ensures SnapshotKept(old(db.snapshot), db.snapshot, db.failAt, db.calls)
    ensures Carried(Retarget(rows, k, updates), userId, old(db.snapshot).Some?, old(db.failAt), old(db.calls),
      ForeignKeyRejects(old(db.handle), old(db.users), userId), old(db.coffees), old(db.nextCoffeeId), old(db.clock), res, db.coffees)
  {
    var coffee := EditTarget(parsed[k], updates);
    var edited := parsed[k := coffee];
    assert edited == Retarget(rows, k, updates).coffees;
    var ok := RewriteInTransaction(db, userId, edited);
    if !ok {
      return InternalError;
    }
    res := Response(200, PatchedBody(coffee));
  }

  /** The three assignments to the target: `name` from `coffee_name`, `origin`, `roastery`. */
  method EditTarget(target: map<string, Value>, updates: map<string, string>) returns (coffee: map<string, Value>)
    ensures coffee == Edited(target, updates)
  {
    coffee := target;
    if "coffee_name" in updates {
      coffee := coffee["name" := Str(updates["coffee_name"])];
    }
    if "origin" in updates {
      coffee := coffee["origin" := Str(updates["origin"])];
    }
    if "roastery" in updates {
      coffee := coffee["roastery" := Str(updates["roastery"])];
    }
  }

  /**
   * The handler of `PATCH /:id` for the authenticated `user`. A body that cannot be read and
   * any failing statement answer 500; a body without patchable fields answers 400 before the
   * store is touched; otherwise the answer and the rewrite follow `PlanFor` the user's rows.
   */
  method PatchBrew(db: Db, user: UserRow, id: string, body: Value) returns (res: Response, ghost listing: seq<CoffeeRow>)
    requires db.Valid()
    modifies db
    ensures db.Valid() && db.handle == old(db.handle) && db.users == old(db.users)
    ensures SnapshotKept(old(db.snapshot), db.snapshot, db.failAt, db.calls)
    ensures body.Undefined? || body.Null? ==> res == InternalError && unchanged(db)
    ensures !body.Undefined? && !body.Null? && Updates(body, AllowedFields) == map[] ==>
      res == Response(400, ErrorBody("No valid fields to update")) && unchanged(db)
    ensures Patches(body) && (old(db.handle).None? || old(db.failAt) == Some(old(db.calls))) ==>
      res == InternalError && db.coffees == old(db.coffees)
    ensures Patches(body) && old(db.handle).Some? && old(db.failAt) != Some(old(db.calls)) ==>
      NewestOrder(listing, old(db.coffees), user.id)
      && Carried(PlanFor(listing, id, Updates(body, AllowedFields)), user.id, old(db.snapshot).Some?,
        old(db.failAt), old(db.calls) + 1, ForeignKeyRejects(old(db.handle), old(db.users), user.id),
        old(db.coffees), old(db.nextCoffeeId), old(db.clock), res, db.coffees)
  {
    listing := [];
    if body.Undefined? || body.Null? {
      return InternalError, listing;
    }
    var updates := SanitizeUpdates(body, AllowedFields);
    if updates == map[] {
      return Response(400, ErrorBody("No valid fields to update")), listing;
    }
    var rows := db.GetUserCoffees(user.id);
    if rows.Err? {
      return InternalError, listing;
    }
    listing := rows.value;
    assert db.calls == old(db.calls) + 1;
    res := PatchRows(db, user.id, rows.value, id, updates);
  }

  /** The body can be read and defines at least one patchable field. */
  predicate Patches(body: Value) {
    !body.Undefined? && !body.Null? && Updates(body, AllowedFields) != map[]
  }
}
