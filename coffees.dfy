/**
 * The coffee routes (routes/coffees.js): the stable uid a coffee is stored under, the
 * normalisation of its feedback and feedback history, `GET /` (the user's coffees, newest
 * first) and `POST /` (upsert every coffee of the payload inside a transaction, then drop
 * the user's coffees the payload no longer lists).
 */
module Coffees {
  import opened Wrappers
  import opened Text
  import opened JsValue
  import opened Sanitize
  import opened Database
  import opened Auth

  const MaxHistoryEntries: nat := 30
  const FeedbackKeys: seq<string> := ["bitterness", "sweetness", "acidity", "body"]
  const FeedbackValues: seq<string> := ["low", "balanced", "high"]

  /** The properties a coffee without an id is identified by, as `JSON.stringify` sees them. */
  datatype Fingerprint = Fingerprint(name: Value, origin: Value, roaster: Value, roastery: Value, addedDate: Value)

  /**
   * The runtime services the routes call: the SHA-1 hex digest of the JSON text of a
   * fingerprint, whether `new Date(s)` is a valid date, and `new Date(s).toISOString()`.
   */
  datatype Library = Library(sha1Hex: Fingerprint -> string, parsesAsDate: string -> bool, toIsoString: string -> string)

  // ---------------------------------------------------------------------------
  // stableCoffeeUid
  // ---------------------------------------------------------------------------

  function FingerprintOf(coffee: Value): Fingerprint {
    Fingerprint(Get(coffee, "name"), Get(coffee, "origin"), Get(coffee, "roaster"), Get(coffee, "roastery"), Get(coffee, "addedDate"))
  }

  /** The coffee carries its own identity: a string or a number `id`. */
  predicate HasOwnId(coffee: Value) {
    Truthy(coffee) && (Get(coffee, "id").Str? || Get(coffee, "id").Num?)
  }

  /** `stableCoffeeUid(coffee)`: its own id, trimmed, or the digest of its fingerprint. */
  function StableCoffeeUid(coffee: Value, sha1Hex: Fingerprint -> string): string {
    if HasOwnId(coffee) then Trim(ToJsString(Get(coffee, "id"))) else sha1Hex(FingerprintOf(coffee))
  }

  /** A SHA-1 digest as `digest('hex')` writes it: forty lower-case hexadecimal digits. */
  predicate IsHexDigest(s: string) {
    |s| == 40 && forall i :: 0 <= i < |s| ==> s[i] in "0123456789abcdef"
  }

  lemma HexDigitNotSpace(c: char)
    requires c in "0123456789abcdef"
    ensures !IsSpace(c)
  {
  }

  /** A digest has no spaces to trim. */
  lemma HexDigestTrimmed(s: string)
    requires IsHexDigest(s)
    ensures TrimStart(s) == s && TrimEnd(s) == s
  {
    HexDigitNotSpace(s[0]);
    HexDigitNotSpace(s[|s| - 1]);
  }

  /** The uid depends on the id alone when there is one, and on the fingerprint alone otherwise. */
  lemma UidIgnoresOtherFields(a: Value, b: Value, sha1Hex: Fingerprint -> string)
    requires HasOwnId(a) && HasOwnId(b) ==> Get(a, "id") == Get(b, "id")
    requires !HasOwnId(a) && !HasOwnId(b) ==> FingerprintOf(a) == FingerprintOf(b)
    requires HasOwnId(a) == HasOwnId(b)
    ensures StableCoffeeUid(a, sha1Hex) == StableCoffeeUid(b, sha1Hex)
  {
  }

  // ---------------------------------------------------------------------------
  // isValidISODate, normalizeFeedback, normalizeFeedbackHistory
  // ---------------------------------------------------------------------------

  /** `isValidISODate(value)`: a string of at most 50 characters that parses as a date. */
  predicate IsValidIsoDate(value: Value, parsesAsDate: string -> bool) {
    value.Str? && |value.s| <= 50 && parsesAsDate(value.s)
  }

  /** What one feedback entry becomes: a rating is lower-cased and trimmed, and dropped unless
      it is one of the three known values; every other entry stays as it is. */
  function FeedbackEntry(key: string, value: Value): Option<Value> {
    if key in FeedbackKeys && value.Str? then
      var v := Trim(Lower(value.s));
      if v in FeedbackValues then Some(Str(v)) else None
    else Some(value)
  }

  function NormalizedFeedback(fields: map<string, Value>): map<string, Value> {
    map k | k in fields && FeedbackEntry(k, fields[k]).Some? :: FeedbackEntry(k, fields[k]).value
  }

  /** `normalizeFeedback(feedback)`: anything but a plain object is returned as it is. */
  function NormalizeFeedbackOf(feedback: Value): Value {
    if feedback.Obj? then Obj(NormalizedFeedback(feedback.fields)) else feedback
  }

  /** The part of the normalised feedback that covers the keys in `done`. */
  function FeedbackPart(fields: map<string, Value>, done: set<string>): map<string, Value> {
    map k | k in fields && k in done && FeedbackEntry(k, fields[k]).Some? :: FeedbackEntry(k, fields[k]).value
  }

  lemma FeedbackPartStep(fields: map<string, Value>, done: set<string>, key: string)
    requires key in fields
    ensures FeedbackPart(fields, done + {key}) ==
      match FeedbackEntry(key, fields[key])
      case Some(v) => FeedbackPart(fields, done)[key := v]
      case None => FeedbackPart(fields, done) - {key}
  {
  }

  /** The loop of `normalizeFeedback` over `Object.entries(feedback)`. */
  method NormalizeFeedback(feedback: Value) returns (r: Value)
    ensures r == NormalizeFeedbackOf(feedback)
  {
    if !Truthy(feedback) || !IsObject(feedback) || feedback.Arr? {
      return feedback;
    }
    var fields := feedback.fields;
    var normalized: map<string, Value> := map[];
    var todo := fields.Keys;
    while todo != {}
      invariant todo <= fields.Keys
      invariant normalized == FeedbackPart(fields, fields.Keys - todo)
      invariant forall k :: k in normalized ==> k !in todo
      decreases |todo|
    {
      var key :| key in todo;
      var value := fields[key];
      FeedbackPartStep(fields, fields.Keys - todo, key);
      assert fields.Keys - (todo - {key}) == (fields.Keys - todo) + {key};
      if key in FeedbackKeys && value.Str? {
        var v := Trim(Lower(value.s));
        if v in FeedbackValues {
          normalized := normalized[key := Str(v)];
        } else {
          assert normalized - {key} == normalized;
        }
      } else {
        normalized := normalized[key := value];
      }
      todo := todo - {key};
    }
    assert fields.Keys - todo == fields.Keys;
    assert FeedbackPart(fields, fields.Keys) == NormalizedFeedback(fields);
    r := Obj(normalized);
  }

  /** A rating that survives normalisation is one of the known values; every key that is not a
      rating keeps its value; anything but an object is left alone. */
  lemma FeedbackRatingsKnown(feedback: Value)
    ensures !feedback.Obj? ==> NormalizeFeedbackOf(feedback) == feedback
    ensures feedback.Obj? ==> var r := NormalizeFeedbackOf(feedback).fields;
      (forall k :: k in r && k in FeedbackKeys && feedback.fields[k].Str? ==> r[k].Str? && r[k].s in FeedbackValues)
      && (forall k :: k in feedback.fields && (k !in FeedbackKeys || !feedback.fields[k].Str?) ==> k in r && r[k] == feedback.fields[k])
      && (forall k :: k in r ==> k in feedback.fields)
  {
  }

  /** A rating is recognised whatever its case and surrounding spaces. */
  lemma FeedbackIgnoresCase(key: string, s: string)
    requires key in FeedbackKeys
    ensures FeedbackEntry(key, Str(s)) == FeedbackEntry(key, Str(Trim(Lower(s))))
  {
    LowerOfTrimmedLower(s);
    TrimIdempotent(Lower(s));
  }

  /** Normalising feedback twice normalises it once. */
  lemma NormalizeFeedbackIdempotent(feedback: Value)
    ensures NormalizeFeedbackOf(NormalizeFeedbackOf(feedback)) == NormalizeFeedbackOf(feedback)
  {
    if feedback.Obj? {
      var once := NormalizedFeedback(feedback.fields);
      forall k | k in once ensures FeedbackEntry(k, once[k]) == Some(once[k]) {
        if k in FeedbackKeys && feedback.fields[k].Str? {
          FeedbackIgnoresCase(k, feedback.fields[k].s);
        }
      }
      assert NormalizedFeedback(once) == once;
    }
  }

  const HistoryFields: seq<string> :=
    ["timestamp", "previousGrind", "newGrind", "previousTemp", "newTemp", "grindOffsetDelta", "customTempApplied", "resetToInitial"]

  /** What a normalised history entry holds in field `f`, if anything. */
  function HistoryField(entry: Value, f: string, lib: Library): Option<Value> {
    var v := Get(entry, f);
    if f == "timestamp" then (if v.Str? then Some(Str(lib.toIsoString(v.s))) else None)
    else if f == "previousGrind" || f == "newGrind" then (if v.Str? then Some(Str(Prefix(v.s, 100))) else None)
    else if f == "previousTemp" || f == "newTemp" then (if v.Str? then Some(Str(Prefix(v.s, 50))) else None)
    else if f == "grindOffsetDelta" then (if v.Num? && v.n.IsFinite() then Some(v) else None)
    else if v.Bool? then Some(v) else None
  }

  /** One entry of the history: `null` unless it is a plain object with a valid timestamp. */
  function NormalizeEntry(entry: Value, lib: Library): Option<Value> {
    if !entry.Obj? || !IsValidIsoDate(Get(entry, "timestamp"), lib.parsesAsDate) then None
    else Some(Obj(map f | f in HistoryFields && HistoryField(entry, f, lib).Some? :: HistoryField(entry, f, lib).value))
  }

  /** The entries mapped through `NormalizeEntry`, with the `null`s filtered out. */
  function NormalizeEntries(items: seq<Value>, lib: Library): (r: seq<Value>)
    ensures |r| <= |items|
  {
    if items == [] then []
    else
      var rest := NormalizeEntries(items[1..], lib);
      match NormalizeEntry(items[0], lib)
      case Some(e) => [e] + rest
      case None => rest
  }

  /** `history.slice(-MAX_HISTORY_ENTRIES)`. */
  function LastEntries(items: seq<Value>): (r: seq<Value>)
    ensures |r| <= MaxHistoryEntries && |r| <= |items| && r == items[|items| - |r|..]
    ensures |items| <= MaxHistoryEntries ==> r == items
  {
    if |items| <= MaxHistoryEntries then items else items[|items| - MaxHistoryEntries..]
  }

  /** `normalizeFeedbackHistory(history)`: anything but an array is returned as it is. */
  function NormalizeHistoryOf(history: Value, lib: Library): Value {
    if history.Arr? then Arr(NormalizeEntries(LastEntries(history.items), lib)) else history
  }

  /** The shape of a normalised entry: a timestamp, and only the known fields, each of its type
      and within its length. */
  predicate HistoryEntryShaped(e: Value) {
    e.Obj? && "timestamp" in e.fields && e.fields["timestamp"].Str?
    && (forall f :: f in e.fields ==> f in HistoryFields)
    && (forall f :: f in e.fields && (f == "previousGrind" || f == "newGrind") ==> e.fields[f].Str? && |e.fields[f].s| <= 100)
    && (forall f :: f in e.fields && (f == "previousTemp" || f == "newTemp") ==> e.fields[f].Str? && |e.fields[f].s| <= 50)
  }

  lemma {:induction false} EntriesShaped(items: seq<Value>, lib: Library)
    ensures forall e :: e in NormalizeEntries(items, lib) ==> HistoryEntryShaped(e)
    decreases |items|
  {
    if items != [] {
      EntriesShaped(items[1..], lib);
    }
  }

  /** The normalised history holds at most 30 entries, each shaped as above. */
  lemma HistoryBounded(history: Value, lib: Library)
    ensures !history.Arr? ==> NormalizeHistoryOf(history, lib) == history
    ensures history.Arr? ==> var r := NormalizeHistoryOf(history, lib);
      r.Arr? && |r.items| <= MaxHistoryEntries && forall e :: e in r.items ==> HistoryEntryShaped(e)
  {
    if history.Arr? {
      EntriesShaped(LastEntries(history.items), lib);
    }
  }

  /** The history keeps, in order, exactly the valid entries among the last 30. */
  lemma {:induction false} EntriesKept(items: seq<Value>, lib: Library)
    ensures forall x :: x in items && NormalizeEntry(x, lib).Some? ==> NormalizeEntry(x, lib).value in NormalizeEntries(items, lib)
    ensures forall e :: e in NormalizeEntries(items, lib) ==> exists x :: x in items && NormalizeEntry(x, lib) == Some(e)
    decreases |items|
  {
    if items != [] {
      EntriesKept(items[1..], lib);
      assert forall x :: x in items ==> x == items[0] || x in items[1..];
    }
  }

  /** `toISOString` gives a valid date string it reproduces, as the ISO form always is. */
  ghost predicate IsoStable(lib: Library) {
    forall s :: lib.parsesAsDate(s) ==>
      |lib.toIsoString(s)| <= 50 && lib.parsesAsDate(lib.toIsoString(s)) && lib.toIsoString(lib.toIsoString(s)) == lib.toIsoString(s)
  }

  lemma EntryIdempotent(entry: Value, lib: Library)
    requires IsoStable(lib)
    requires NormalizeEntry(entry, lib).Some?
    ensures NormalizeEntry(NormalizeEntry(entry, lib).value, lib) == NormalizeEntry(entry, lib)
  {
    var e := NormalizeEntry(entry, lib).value;
    var m := e.fields;
    var ts := Get(entry, "timestamp").s;
    assert lib.parsesAsDate(ts);
    assert "timestamp" in HistoryFields;
    assert Get(e, "timestamp") == Str(lib.toIsoString(ts));
    assert IsValidIsoDate(Get(e, "timestamp"), lib.parsesAsDate);
    forall f | f in HistoryFields ensures HistoryField(e, f, lib) == HistoryField(entry, f, lib) {
      if f in m {
        assert Get(e, f) == m[f] == HistoryField(entry, f, lib).value;
      } else {
        assert Get(e, f) == Undefined;
      }
    }
    assert NormalizeEntry(e, lib).value.fields == m;
  }

  lemma {:induction false} EntriesIdempotent(items: seq<Value>, lib: Library)
    requires IsoStable(lib)
    ensures NormalizeEntries(NormalizeEntries(items, lib), lib) == NormalizeEntries(items, lib)
    decreases |items|
  {
    if items != [] {
      EntriesIdempotent(items[1..], lib);
      var rest := NormalizeEntries(items[1..], lib);
      match NormalizeEntry(items[0], lib)
      case Some(e) =>
        EntryIdempotent(items[0], lib);
        assert ([e] + rest)[1..] == rest;
      case None =>
    }
  }

  /** Normalising a history twice normalises it once. */
  lemma NormalizeHistoryIdempotent(history: Value, lib: Library)
    requires IsoStable(lib)
    ensures NormalizeHistoryOf(NormalizeHistoryOf(history, lib), lib) == NormalizeHistoryOf(history, lib)
  {
    if history.Arr? {
      var once := NormalizeEntries(LastEntries(history.items), lib);
      EntriesIdempotent(LastEntries(history.items), lib);
      assert LastEntries(once) == once;
    }
  }

  // ---------------------------------------------------------------------------
  // The documents a payload becomes
  // ---------------------------------------------------------------------------

  /** `{...coffee, feedback: normalizeFeedback(coffee?.feedback), feedbackHistory: ...}`. */
  function PreNormalizedOf(coffee: Value, lib: Library): Value {
    Obj(SpreadOf(coffee)["feedback" := NormalizeFeedbackOf(Get(coffee, "feedback"))]
      ["feedbackHistory" := NormalizeHistoryOf(Get(coffee, "feedbackHistory"), lib)])
  }

  method PreNormalize(coffee: Value, lib: Library) returns (pre: Value)
    ensures pre == PreNormalizedOf(coffee, lib)
  {
    var feedback := NormalizeFeedback(Get(coffee, "feedback"));
    pre := Obj(SpreadOf(coffee)["feedback" := feedback]["feedbackHistory" := NormalizeHistoryOf(Get(coffee, "feedbackHistory"), lib)]);
  }

  /** Normalising the feedback never changes which coffee an entry is. */
  lemma PreNormalizedKeepsUid(coffee: Value, lib: Library)
    ensures StableCoffeeUid(PreNormalizedOf(coffee, lib), lib.sha1Hex) == StableCoffeeUid(coffee, lib.sha1Hex)
  {
    var pre := PreNormalizedOf(coffee, lib);
    SpreadIndexKeys(coffee);
    assert Get(pre, "id") == Get(coffee, "id");
    assert FingerprintOf(pre) == FingerprintOf(coffee);
  }

  /** What one payload entry becomes: the uid it is stored under and the stored document. */
  function DocOf(coffee: Value, lib: Library): (string, Value) {
    var pre := PreNormalizedOf(coffee, lib);
    (StableCoffeeUid(pre, lib.sha1Hex), Obj(SanitizedOf(pre)))
  }

  /** The stored document keeps none of the normalised feedback: `sanitizeCoffeeData` copies
      only the fields it knows. */
  lemma StoredDropsFeedback(coffee: Value, lib: Library)
    ensures "feedback" !in DocOf(coffee, lib).1.fields && "feedbackHistory" !in DocOf(coffee, lib).1.fields
  {
    SanitizedDropsFeedback(PreNormalizedOf(coffee, lib));
  }

  lemma SanitizedDropsFeedback(data: Value)
    ensures "feedback" !in SanitizedOf(data) && "feedbackHistory" !in SanitizedOf(data)
  {
    SanitizedFieldsOf(data, "feedback");
    SanitizedFieldsOf(data, "feedbackHistory");
    FeedbackNotSanitized();
  }

  /** No field the sanitiser keeps is a feedback field. */
  lemma FeedbackNotSanitized()
    ensures "feedback" !in SanitizedFields && "feedbackHistory" !in SanitizedFields
  {
    forall f | f in SanitizedFields ensures f[0] != 'f' {
      assert f in TextFields || f in ["process", "altitude"] || f in PassThroughFields;
    }
  }

  /** The `(uid, document)` pairs a payload stores, in payload order. */
  function Docs(coffees: seq<Value>, lib: Library): (docs: seq<(string, Value)>)
    ensures |docs| == |coffees| && forall i {:trigger DocOf(coffees[i], lib)} :: 0 <= i < |coffees| ==> docs[i] == DocOf(coffees[i], lib)
  {
    DocsBy(coffees, Preparer(lib))
  }

  /** The pairs `prepare` makes of the coffees, in order. */
  function DocsBy(coffees: seq<Value>, prepare: Value -> (string, Value)): (docs: seq<(string, Value)>)
    ensures |docs| == |coffees| && forall i :: 0 <= i < |coffees| ==> docs[i] == prepare(coffees[i])
  {
    seq(|coffees|, i requires 0 <= i < |coffees| => prepare(coffees[i]))
  }

  /** `DocOf` as a function value. */
  function Preparer(lib: Library): Value -> (string, Value) {
    c => DocOf(c, lib)
  }

  /**
   * `prepare` turns every coffee into the pair `DocOf` gives. The loop of `POST /` is proved
   * against such a `prepare`, which keeps the definition of `DocOf` out of its proof.
   */
  ghost predicate Prepares(prepare: Value -> (string, Value), lib: Library) {
    forall c {:trigger DocOf(c, lib)} :: prepare(c) == DocOf(c, lib)
  }

  lemma PreparerPrepares(lib: Library)
    ensures Prepares(Preparer(lib), lib)
  {
  }

  /** Whatever function `Prepares` the documents, the payload's pairs are `Docs`. */
  lemma PreparedDocs(coffees: seq<Value>, lib: Library, prepare: Value -> (string, Value))
    requires Prepares(prepare, lib)
    ensures DocsBy(coffees, prepare) == Docs(coffees, lib)
  {
    var d := Docs(coffees, lib);
    forall i | 0 <= i < |coffees| ensures DocsBy(coffees, prepare)[i] == d[i] {
      assert d[i] == DocOf(coffees[i], lib);
    }
  }

  /** `keepCoffeeUids`: the uids in payload order. */
  function Uids(docs: seq<(string, Value)>): (u: seq<string>)
    ensures |u| == |docs| && forall i :: 0 <= i < |docs| ==> u[i] == docs[i].0
  {
    seq(|docs|, i requires 0 <= i < |docs| => docs[i].0)
  }

  /** The document the payload stores last under `uid`. */
  function Latest(docs: seq<(string, Value)>, uid: string): Option<Value>
    decreases |docs|
  {
    if docs == [] then None
    else if docs[|docs| - 1].0 == uid then Some(docs[|docs| - 1].1)
    else Latest(docs[..|docs| - 1], uid)
  }

  lemma {:induction false} LatestFound(docs: seq<(string, Value)>, uid: string)
    ensures Latest(docs, uid).Some? <==> uid in Uids(docs)
    decreases |docs|
  {
    if docs != [] {
      var k := |docs| - 1;
      LatestFound(docs[..k], uid);
      assert Uids(docs) == Uids(docs[..k]) + [docs[k].0];
    }
  }

  /** The coffee rows after upserting `docs` one by one at time `t`; the k-th upsert draws id
      `n + k`. */
  function Saved(rows: seq<CoffeeRow>, userId: nat, docs: seq<(string, Value)>, n: nat, t: nat): seq<CoffeeRow>
    decreases |docs|
  {
    if docs == [] then rows
    else
      var k := |docs| - 1;
      UpsertRows(Saved(rows, userId, docs[..k], n, t), userId, docs[k].0, docs[k].1, n + k, t)
  }

  /** The rows a successful `POST /` leaves: the upserts, then `replaceUserCoffees`. */
  function PostRows(rows: seq<CoffeeRow>, userId: nat, docs: seq<(string, Value)>, n: nat, t: nat): seq<CoffeeRow> {
    KeepUids(Saved(rows, userId, docs, n, t), userId, Uids(docs))
  }

  /** An upsert leaves every row except the one it writes. */
  lemma UpsertOthersFrom(rows: seq<CoffeeRow>, userId: nat, uid: string, data: Value, n: nat, t: nat)
    ensures forall x :: x in UpsertRows(rows, userId, uid, data, n, t) && !(x.userId == userId && x.uid == Some(uid)) ==> x in rows
  {
    match FindUid(rows, userId, uid)
    case Some(k) =>
      var r := rows[k := rows[k].(data := data, createdAt := t)];
      forall x | x in r && !(x.userId == userId && x.uid == Some(uid)) ensures x in rows {
        var i :| 0 <= i < |r| && r[i] == x;
        assert i != k;
        assert rows[i] == x;
      }
    case None =>
  }

  /** The last document of a non-empty payload is upserted after the others. */
  lemma SavedStep(rows: seq<CoffeeRow>, userId: nat, docs: seq<(string, Value)>, n: nat, t: nat)
    requires docs != []
    ensures var k := |docs| - 1;
      |docs[..k]| == k
      && Saved(rows, userId, docs, n, t) == UpsertRows(Saved(rows, userId, docs[..k], n, t), userId, docs[k].0, docs[k].1, n + k, t)
  {
  }

  /** The uids of a non-empty payload are those of all but its last document, and that one's. */
  lemma UidsStep(docs: seq<(string, Value)>)
    requires docs != []
    ensures var k := |docs| - 1;
      (set u | u in Uids(docs)) == (set u | u in Uids(docs[..k])) + {docs[k].0}
  {
    var k := |docs| - 1;
    assert Uids(docs) == Uids(docs[..k]) + [docs[k].0];
  }

  /** One more upsert extends the rows and the uids of a prefix of the payload by its next document. */
  lemma SavedNext(rows: seq<CoffeeRow>, userId: nat, docs: seq<(string, Value)>, n: nat, t: nat, i: nat, before: seq<CoffeeRow>, uid: string)
    requires i < |docs| && before == Saved(rows, userId, docs[..i], n, t) && docs[i].0 == uid
    ensures UpsertRows(before, userId, uid, docs[i].1, n + i, t) == Saved(rows, userId, docs[..i + 1], n, t)
    ensures Uids(docs[..i + 1]) == Uids(docs[..i]) + [uid]
  {
    assert docs[..i + 1][..i] == docs[..i];
    SavedStep(rows, userId, docs[..i + 1], n, t);
  }

  lemma {:induction false} SavedValid(rows: seq<CoffeeRow>, userId: nat, docs: seq<(string, Value)>, n: nat, t: nat)
    requires ValidCoffees(rows, n, t)
    ensures ValidCoffees(Saved(rows, userId, docs, n, t), n + |docs|, t)
    decreases |docs|
  {
    if docs != [] {
      var k := |docs| - 1;
      var prev := Saved(rows, userId, docs[..k], n, t);
      SavedStep(rows, userId, docs, n, t);
      SavedValid(rows, userId, docs[..k], n, t);
      UpsertValid(prev, userId, docs[k].0, docs[k].1, n + k, t);
    }
  }

  lemma {:induction false} SavedUids(rows: seq<CoffeeRow>, userId: nat, docs: seq<(string, Value)>, n: nat, t: nat)
    requires ValidCoffees(rows, n, t)
    ensures UidsOf(Saved(rows, userId, docs, n, t), userId) == UidsOf(rows, userId) + set u | u in Uids(docs)
    decreases |docs|
  {
    if docs != [] {
      var k := |docs| - 1;
      var prev := Saved(rows, userId, docs[..k], n, t);
      SavedStep(rows, userId, docs, n, t);
      UidsStep(docs);
      SavedUids(rows, userId, docs[..k], n, t);
      SavedValid(rows, userId, docs[..k], n, t);
      UpsertHoldsLatest(prev, userId, docs[k].0, docs[k].1, n + k, t);
    }
  }

  lemma {:induction false} SavedOthers(rows: seq<CoffeeRow>, userId: nat, docs: seq<(string, Value)>, n: nat, t: nat, other: nat)
    requires other != userId
    ensures OfUser(Saved(rows, userId, docs, n, t), other) == OfUser(rows, other)
    decreases |docs|
  {
    if docs != [] {
      var k := |docs| - 1;
      SavedOthers(rows, userId, docs[..k], n, t, other);
      SavedOthersStep(rows, userId, docs, n, t, other);
    }
  }

  lemma SavedOthersStep(rows: seq<CoffeeRow>, userId: nat, docs: seq<(string, Value)>, n: nat, t: nat, other: nat)
    requires other != userId && docs != []
    ensures OfUser(Saved(rows, userId, docs, n, t), other) == OfUser(Saved(rows, userId, docs[..|docs| - 1], n, t), other)
  {
    var k := |docs| - 1;
    SavedStep(rows, userId, docs, n, t);
    UpsertKeepsOthers(Saved(rows, userId, docs[..k], n, t), userId, docs[k].0, docs[k].1, n + k, t, other);
  }

  lemma {:induction false} SavedLatest(rows: seq<CoffeeRow>, userId: nat, docs: seq<(string, Value)>, n: nat, t: nat)
    requires ValidCoffees(rows, n, t)
    ensures forall x :: x in Saved(rows, userId, docs, n, t) && x.userId == userId && x.uid.Some? && Latest(docs, x.uid.value).Some? ==>
      x.data == Latest(docs, x.uid.value).value
    decreases |docs|
  {
    if docs != [] {
      var k := |docs| - 1;
      var prev := Saved(rows, userId, docs[..k], n, t);
      var (uid, data) := docs[k];
      SavedLatest(rows, userId, docs[..k], n, t);
      SavedValid(rows, userId, docs[..k], n, t);
      UpsertHoldsLatest(prev, userId, uid, data, n + k, t);
      UpsertOthersFrom(prev, userId, uid, data, n + k, t);
      forall x | x in Saved(rows, userId, docs, n, t) && x.userId == userId && x.uid.Some? && Latest(docs, x.uid.value).Some?
        ensures x.data == Latest(docs, x.uid.value).value
      {
        if x.uid != Some(uid) {
          assert x in prev;
        }
      }
    }
  }

  /**
   * After a successful `POST /` the user's coffees mirror the payload: one row per distinct
   * uid of the payload and no other, each holding the last document the payload gives for
   * it; every other user's coffees are as they were.
   */
  lemma PostMirrorsPayload(rows: seq<CoffeeRow>, userId: nat, docs: seq<(string, Value)>, n: nat, t: nat)
    requires ValidCoffees(rows, n, t)
    ensures var after := PostRows(rows, userId, docs, n, t);
      UidsOf(after, userId) == (set u | u in Uids(docs))
      && (forall x :: x in after && x.userId == userId ==> x.uid.Some? && Latest(docs, x.uid.value) == Some(x.data))
      && UidsUnique(after)
      && (forall other :: other != userId ==> OfUser(after, other) == OfUser(rows, other))
  {
    var saved := Saved(rows, userId, docs, n, t);
    var after := PostRows(rows, userId, docs, n, t);
    SavedValid(rows, userId, docs, n, t);
    SavedUids(rows, userId, docs, n, t);
    SavedLatest(rows, userId, docs, n, t);
    forall other | other != userId ensures OfUser(saved, other) == OfUser(rows, other) {
      SavedOthers(rows, userId, docs, n, t, other);
    }
    ReplaceKeepsListed(saved, userId, Uids(docs));
    SubsetUnique(saved, after);
    forall x | x in after && x.userId == userId ensures x.uid.Some? && Latest(docs, x.uid.value) == Some(x.data) {
      LatestFound(docs, x.uid.value);
    }
  }

  /** A payload with no coffees deletes all of the user's coffees. */
  lemma EmptyPayloadClears(rows: seq<CoffeeRow>, userId: nat, n: nat, t: nat)
    ensures forall x :: x in PostRows(rows, userId, [], n, t) ==> x.userId != userId
    ensures UidsOf(PostRows(rows, userId, [], n, t), userId) == {}
  {
  }

  // ---------------------------------------------------------------------------
  // GET /
  // ---------------------------------------------------------------------------

  function UidColumn(row: CoffeeRow): Value {
    if row.uid.Some? then Str(row.uid.value) else Null
  }

  /** `{ id: c.coffee_uid || c.id, ...JSON.parse(c.data), savedAt: c.created_at }`. */
  function Listed(row: CoffeeRow): Value {
    Obj((map["id" := Or(UidColumn(row), NumberOf(row.id))] + SpreadOf(row.data))["savedAt" := Str(NatToString(row.createdAt))])
  }

  function Listing(rows: seq<CoffeeRow>): (r: seq<Value>)
    ensures |r| == |rows| && forall i :: 0 <= i < |rows| ==> r[i] == Listed(rows[i])
  {
    seq(|rows|, i requires 0 <= i < |rows| => Listed(rows[i]))
  }

  function ListAnswer(rows: seq<CoffeeRow>): Response {
    Response(200, Obj(map["success" := Bool(true), "coffees" := Arr(Listing(rows))]))
  }

  /** A listed coffee is its stored document, stamped with the row's time, and identified by the
      document's own id, else by its uid, else by the row id. */
  lemma ListedDocument(row: CoffeeRow)
    ensures Get(Listed(row), "savedAt") == Str(NatToString(row.createdAt))
    ensures forall f :: f in SpreadOf(row.data) && f != "savedAt" ==> Get(Listed(row), f) == SpreadOf(row.data)[f]
    ensures "id" !in SpreadOf(row.data) && row.uid.Some? && row.uid.value != "" ==> Get(Listed(row), "id") == Str(row.uid.value)
    ensures "id" !in SpreadOf(row.data) && (row.uid.None? || row.uid == Some("")) ==> Get(Listed(row), "id") == NumberOf(row.id)
  {
  }

  /**
   * Posting back a coffee as `GET /` lists it keeps its uid, so the upsert finds the same row:
   * for a row a `POST /` stored, whose coffee had a string or number id or no id at all.
   */
  lemma GetThenPostKeepsUid(coffee: Value, lib: Library, row: CoffeeRow)
    requires row.data == DocOf(coffee, lib).1 && row.uid == Some(DocOf(coffee, lib).0)
    requires var id := Get(PreNormalizedOf(coffee, lib), "id");
      id.Str? || id.Num? || (id.Undefined? && IsHexDigest(lib.sha1Hex(FingerprintOf(PreNormalizedOf(coffee, lib)))))
    ensures DocOf(Listed(row), lib).0 == row.uid.value
  {
    var pre := PreNormalizedOf(coffee, lib);
    assert row.data == Obj(SanitizedOf(pre)) && row.uid == Some(StableCoffeeUid(pre, lib.sha1Hex));
    PreNormalizedKeepsUid(Listed(row), lib);
    ListedKeepsUid(pre, lib.sha1Hex, row);
  }

  /** A row stored from the pre-normalised coffee `pre` lists with an id that gives back its uid. */
  lemma ListedKeepsUid(pre: Value, sha1Hex: Fingerprint -> string, row: CoffeeRow)
    requires pre.Obj? && row.data == Obj(SanitizedOf(pre)) && row.uid == Some(StableCoffeeUid(pre, sha1Hex))
    requires var id := Get(pre, "id"); id.Str? || id.Num? || (id.Undefined? && IsHexDigest(sha1Hex(FingerprintOf(pre))))
    ensures StableCoffeeUid(Listed(row), sha1Hex) == row.uid.value
  {
    var listed := Listed(row);
    SanitizedFieldsOf(pre, "id");
    assert "id" in SanitizedFields && "id" !in TextFields by {
      assert SanitizedFields[8] == "id";
      PassThroughDisjoint("id");
    }
    var id := Get(pre, "id");
    if id.Str? || id.Num? {
      assert Get(listed, "id") == id;
      TrimIdempotent(ToJsString(id));
    } else {
      var digest := sha1Hex(FingerprintOf(pre));
      assert Get(listed, "id") == Str(digest) by {
        assert digest != [];
      }
      HexDigestTrimmed(digest);
    }
  }

  /**
   * The handler of `GET /` for the authenticated `user`: `updateLastLogin`, then
   * `getUserCoffees`; a thrown error answers 500.
   */
  method ListCoffees(db: Db, user: UserRow) returns (res: Response, ghost listing: seq<CoffeeRow>)
    requires db.Valid()
    modifies db
    ensures db.Valid() && db.handle == old(db.handle) && db.snapshot == old(db.snapshot) && db.coffees == old(db.coffees)
    ensures old(db.handle).None? || old(db.Fails()) ==> res == ServerError && db.users == old(db.users)
    ensures old(db.handle).Some? && !old(db.Fails()) ==> db.users == WithLastLogin(old(db.users), user.id, old(db.clock))
    ensures old(db.handle).Some? && !old(db.Fails()) && old(db.failAt) == Some(old(db.calls) + 1) ==> res == ServerError
    ensures old(db.handle).Some? && !old(db.Fails()) && old(db.failAt) != Some(old(db.calls) + 1) ==>
      NewestOrder(listing, old(db.coffees), user.id) && res == ListAnswer(listing)
  {
    listing := [];
    var updated := db.UpdateLastLogin(user.id);
    if updated.Err? {
      return ServerError, listing;
    }
    var rows := db.GetUserCoffees(user.id);
    if rows.Err? {
      return ServerError, listing;
    }
    listing := rows.value;
    res := Response(200, Obj(map["success" := Bool(true), "coffees" := Arr(Listing(rows.value))]));
  }

  // ---------------------------------------------------------------------------
  // POST /
  // ---------------------------------------------------------------------------

  /**
   * The entries `if (coffees && coffees.length > 0) for (const coffee of coffees)` visits:
   * the elements of an array, the characters of a string, none for anything without a
   * positive length; `None` when the loop throws because the value is not iterable.
   */
  function Visited(coffees: Value): Option<seq<Value>> {
    match coffees
    case Arr(items) => Some(items)
    case Str(s) => Some(Chars(s))
    case Obj(fields) => if "length" in fields && GreaterThanZero(fields["length"]) then None else Some([])
    case _ => Some([])
  }

  /** `{ success: true, saved: coffees?.length || 0 }`. */
  function SavedBody(coffees: Value): Value {
    Obj(map["success" := Bool(true), "saved" := Or(Get(coffees, "length"), Num(Number("0")))])
  }

  /**
   * The conditions under which `POST /` commits: a body to destructure, a connection with no
   * transaction open, a `BEGIN` that does not fail, an iterable payload, no failing upsert,
   * `replaceUserCoffees` or `COMMIT`, and, when there is something to upsert, a user row the
   * foreign key accepts.
   */
  predicate Commits(handle: Option<Backend>, inTransaction: bool, failAt: Option<nat>, calls: nat, foreignKeyFails: bool, body: Value) {
    !body.Undefined? && !body.Null? && handle.Some? && !inTransaction && failAt != Some(calls)
    && ItemsCommit(Visited(Get(body, "coffees")), failAt, calls + 1, foreignKeyFails)
  }

  /** The part of `Commits` from the first upsert on: the upserts, `replaceUserCoffees` and
      `COMMIT` are spared and the foreign key holds when there is something to upsert. */
  predicate ItemsCommit(visited: Option<seq<Value>>, failAt: Option<nat>, calls: nat, foreignKeyFails: bool) {
    visited.Some? && Spared(failAt, calls, |visited.value| + 2) && (visited.value != [] ==> !foreignKeyFails)
  }

  /**
   * One pass of the `for` loop of `POST /`: pre-normalise the coffee, take its stable uid,
   * sanitise it and save it under that uid.
   */
  method SaveDocument(db: Db, userId: nat, coffee: Value, lib: Library, ghost prepare: Value -> (string, Value), ghost doc: (string, Value)) returns (uid: string, r: Result<nat, DbError>)
    requires db.Valid() && db.handle.Some? && Prepares(prepare, lib) && doc == prepare(coffee)
    modifies db
    ensures uid == doc.0
    ensures db.Valid() && db.Ran() && db.users == old(db.users) && db.clock == old(db.clock)
    ensures r.Err? <==> old(db.failAt) == Some(old(db.calls)) || ForeignKeyRejects(old(db.handle), old(db.users), userId)
    ensures r.Err? ==> db.coffees == old(db.coffees)
    ensures r.Ok? ==> (db.coffees == UpsertRows(old(db.coffees), userId, uid, doc.1, old(db.nextCoffeeId), old(db.clock))
      && db.nextCoffeeId == old(db.nextCoffeeId) + 1)
  {
    var pre := PreNormalize(coffee, lib);
    uid := StableCoffeeUid(pre, lib.sha1Hex);
    var sanitized := SanitizeCoffeeData(pre);
    assert doc == DocOf(coffee, lib) == (uid, sanitized);
    r := db.UpsertCoffee(userId, uid, sanitized);
  }

  /** Pass `i` of the `for` loop of `POST /`, after the saves of the entries before it. */
  method SaveEntry(db: Db, userId: nat, items: seq<Value>, i: nat, lib: Library, ghost prepare: Value -> (string, Value),
                   ghost docs: seq<(string, Value)>, ghost rows0: seq<CoffeeRow>, ghost n0: nat, ghost t0: nat)
    returns (uid: string, ok: bool)
    requires db.Valid() && db.handle.Some? && Prepares(prepare, lib) && i < |items| && docs == DocsBy(items, prepare)
    requires db.coffees == Saved(rows0, userId, docs[..i], n0, t0) && db.nextCoffeeId == n0 + i && db.clock == t0
    modifies db
    ensures db.Valid() && db.Ran() && db.users == old(db.users) && db.clock == old(db.clock)
    ensures ok <==> old(db.failAt) != Some(old(db.calls)) && !ForeignKeyRejects(old(db.handle), old(db.users), userId)
    ensures !ok ==> db.coffees == old(db.coffees)
    ensures ok ==> (db.coffees == Saved(rows0, userId, docs[..i + 1], n0, t0) && db.nextCoffeeId == n0 + i + 1
      && Uids(docs[..i + 1]) == Uids(docs[..i]) + [uid])
  {
    var saved;
    uid, saved := SaveDocument(db, userId, items[i], lib, prepare, docs[i]);
    ok := saved.Ok?;
    if ok {
      SavedNext(rows0, userId, docs, n0, t0, i, old(db.coffees), uid);
    }
  }

  /** The `for` loop of `POST /`: stops at the first save that fails. */
  method SaveAll(db: Db, userId: nat, items: seq<Value>, lib: Library, ghost prepare: Value -> (string, Value)) returns (keep: seq<string>, ok: bool)
    requires db.Valid() && db.handle.Some? && Prepares(prepare, lib)
    modifies db
    ensures db.Valid() && db.handle == old(db.handle) && db.snapshot == old(db.snapshot) && db.failAt == old(db.failAt)
    ensures db.users == old(db.users) && db.clock == old(db.clock) && db.calls <= old(db.calls) + |items|
    ensures !ok ==> db.failAt == Some(db.calls - 1) || db.coffees == old(db.coffees)
    ensures ok <==> Spared(old(db.failAt), old(db.calls), |items|) && (items != [] ==> !ForeignKeyRejects(old(db.handle), old(db.users), userId))
    ensures ok ==> (keep == Uids(DocsBy(items, prepare)) && db.calls == old(db.calls) + |items|
      && db.coffees == Saved(old(db.coffees), userId, DocsBy(items, prepare), old(db.nextCoffeeId), old(db.clock)))
  {
    ghost var docs := DocsBy(items, prepare);
    ghost var rows0, n0, t0, c0 := db.coffees, db.nextCoffeeId, db.clock, db.calls;
    ghost var handle, snapshot, failAt, users := db.handle, db.snapshot, db.failAt, db.users;
    ghost var fk := ForeignKeyRejects(handle, users, userId);
    keep := [];
    var i := 0;
    while i < |items|
      invariant 0 <= i <= |items|
      invariant db.Valid() && db.handle == handle && db.snapshot == snapshot && db.failAt == failAt && db.users == users
      invariant db.calls == c0 + i && db.nextCoffeeId == n0 + i && db.clock == t0
      invariant Spared(db.failAt, c0, i) && (i > 0 ==> !fk)
      invariant keep == Uids(docs[..i])
      invariant db.coffees == Saved(rows0, userId, docs[..i], n0, t0)
    {
      var uid, saved := SaveEntry(db, userId, items, i, lib, prepare, docs, rows0, n0, t0);
      if !saved {
        if db.failAt != Some(db.calls - 1) {
          assert fk && docs[..i] == [];
        }
        return keep, false;
      }
      SparedStep(db.failAt, c0, i);
      keep := keep + [uid];
      i := i + 1;
    }
    assert docs[..i] == docs;
    ok := true;
  }

  /**
   * The inner `try` block of `POST /`, inside the open transaction: the upserts, then
   * `replaceUserCoffees`, then `commit`; a failing statement rolls the transaction back. A
   * `ROLLBACK` that fails itself leaves the transaction open, and the tables as they were.
   */
  method SaveInTransaction(db: Db, userId: nat, items: seq<Value>, lib: Library, ghost prepare: Value -> (string, Value)) returns (ok: bool)
    requires db.Valid() && db.handle.Some? && db.snapshot == Some(db.Contents()) && Prepares(prepare, lib)
    modifies db
    ensures db.Valid() && db.handle == old(db.handle) && db.users == old(db.users)
    ensures ok <==> ItemsCommit(Some(items), old(db.failAt), old(db.calls), ForeignKeyRejects(old(db.handle), old(db.users), userId))
    ensures ok ==> (db.snapshot.None?
      && db.coffees == PostRows(old(db.coffees), userId, DocsBy(items, prepare), old(db.nextCoffeeId), old(db.clock)))
    ensures !ok ==> db.coffees == old(db.coffees)
    ensures !ok ==> db.snapshot.None? || (db.snapshot == old(db.snapshot) && db.failAt == Some(db.calls - 1))
  {
    ghost var failAt, calls, fk := db.failAt, db.calls, ForeignKeyRejects(db.handle, db.users, userId);
    ghost var commits := ItemsCommit(Some(items), failAt, calls, fk);
    var saved := SaveThenReplace(db, userId, items, lib, prepare);
    if !saved {
      assert !commits;
      var rolledBack := db.Rollback();
      return false;
    }
    SparedStep(failAt, calls, |items| + 1);
    var committed := db.Commit();
    if committed.Err? {
      assert !commits;
      var rolledBack := db.Rollback();
      return false;
    }
    assert commits;
    ok := true;
  }

  /** The upserts and `replaceUserCoffees`, the statements of the transaction before `COMMIT`. */
  method SaveThenReplace(db: Db, userId: nat, items: seq<Value>, lib: Library, ghost prepare: Value -> (string, Value)) returns (ok: bool)
    requires db.Valid() && db.handle.Some? && Prepares(prepare, lib)
    modifies db
    ensures db.Valid() && db.handle == old(db.handle) && db.snapshot == old(db.snapshot) && db.failAt == old(db.failAt)
    ensures db.users == old(db.users)
    ensures ok <==> Spared(old(db.failAt), old(db.calls), |items| + 1) && (items != [] ==> !ForeignKeyRejects(old(db.handle), old(db.users), userId))
    ensures ok ==> (db.calls == old(db.calls) + |items| + 1
      && db.coffees == PostRows(old(db.coffees), userId, DocsBy(items, prepare), old(db.nextCoffeeId), old(db.clock)))
    ensures !ok ==> db.failAt == Some(db.calls - 1) || db.coffees == old(db.coffees)
  {
    ghost var failAt, calls := db.failAt, db.calls;
    var keep, saved := SaveAll(db, userId, items, lib, prepare);
    if !saved {
      return false;
    }
    SparedStep(failAt, calls, |items|);
    var replaced := db.ReplaceUserCoffees(userId, keep);
    ok := replaced.Ok?;
  }

  /**
   * The handler of `POST /` for the authenticated `user`: inside a transaction, upsert every
   * coffee of `req.body.coffees` under its stable uid, then delete the user's coffees whose
   * uid the payload does not list, then commit; any error rolls the transaction back and
   * answers 500. A failing `BEGIN` answers 500 with nothing to roll back.
   */
  method SaveCoffees(db: Db, user: UserRow, body: Value, lib: Library, ghost prepare: Value -> (string, Value)) returns (res: Response)
    requires db.Valid() && Prepares(prepare, lib)
    modifies db
    ensures db.Valid() && db.handle == old(db.handle) && db.users == old(db.users)
    ensures res.status == 200 <==>
      Commits(old(db.handle), old(db.snapshot).Some?, old(db.failAt), old(db.calls), ForeignKeyRejects(old(db.handle), old(db.users), user.id), body)
    ensures res.status == 200 ==> (res == Response(200, SavedBody(Get(body, "coffees"))) && db.snapshot.None?
      && db.coffees == PostRows(old(db.coffees), user.id, DocsBy(Visited(Get(body, "coffees")).value, prepare), old(db.nextCoffeeId), old(db.clock)))
    ensures res.status != 200 ==> res == ServerError && db.coffees == old(db.coffees)
    ensures res.status != 200 ==>
      db.snapshot == old(db.snapshot) || (old(db.snapshot).None? && db.snapshot.Some? && db.failAt == Some(db.calls - 1))
  {
    if body.Undefined? || body.Null? {
      return ServerError;
    }
    var coffees := Get(body, "coffees");
    var begun := db.BeginTransaction();
    if begun.Err? {
      return ServerError;
    }
    var visited := Visited(coffees);
    ghost var failAt, calls, foreignKeyFails := db.failAt, db.calls, ForeignKeyRejects(db.handle, db.users, user.id);
    assert Commits(old(db.handle), old(db.snapshot).Some?, old(db.failAt), old(db.calls), ForeignKeyRejects(old(db.handle), old(db.users), user.id), body) ==
      ItemsCommit(visited, failAt, calls, foreignKeyFails);
    if visited.None? {
      var rolledBack := db.Rollback();
      return ServerError;
    }
    var ok := SaveInTransaction(db, user.id, visited.value, lib, prepare);
    if !ok {
      return ServerError;
    }
    res := Response(200, SavedBody(coffees));
  }
}
