/**
 * The sanitiser applied to coffee documents before they are stored: `stripHTML`,
 * `truncateString`, `cleanAltitude`, `validateProcess` and `sanitizeCoffeeData`.
 */
module Sanitize {
  import opened Text
  import opened Wrappers
  import opened JsValue

  // ---------------------------------------------------------------------------
  // stripHTML: one pass of /<[^>]*>/g, then one pass of /&[^;]+;/g
  // ---------------------------------------------------------------------------

  /** A match of `/<[^>]*>/` starts at the head of `s`: a `<` with a `>` somewhere after it. */
  predicate TagAt(s: string) {
    s != [] && s[0] == '<' && '>' in s[1..]
  }

  /** The length of that match: up to and including the first `>`. */
  function TagEnd(s: string): (n: nat)
    requires TagAt(s)
    ensures 2 <= n <= |s| && s[n - 1] == '>' && '>' !in s[1..n - 1]
  {
    IndexOf(s[1..], '>') + 2
  }

  /** A match of `/&[^;]+;/` starts at the head of `s`: an `&`, at least one character
      other than `;`, then a `;`. */
  predicate EntityAt(s: string) {
    s != [] && s[0] == '&' && ';' in s[1..] && IndexOf(s[1..], ';') > 0
  }

  /** The length of that match: up to and including the first `;`. */
  function EntityEnd(s: string): (n: nat)
    requires EntityAt(s)
    ensures 3 <= n <= |s| && s[n - 1] == ';' && ';' !in s[1..n - 1]
  {
    IndexOf(s[1..], ';') + 2
  }

  /** `s.replace(/<[^>]*>/g, '')`: the global replace scans left to right and resumes after
      each match; a `<` with no `>` after it is kept. */
  function StripTags(s: string): (r: string)
    ensures |r| <= |s|
    ensures forall c :: c in r ==> c in s
    decreases |s|
  {
    if s == [] then []
    else if TagAt(s) then
      var rest := s[TagEnd(s)..];
      var r := StripTags(rest);
      assert forall c :: c in rest ==> c in s;
      r
    else [s[0]] + StripTags(s[1..])
  }

  /** `s.replace(/&[^;]+;/g, '')`. */
  function StripEntities(s: string): (r: string)
    ensures |r| <= |s|
    ensures forall c :: c in r ==> c in s
    decreases |s|
  {
    if s == [] then []
    else if EntityAt(s) then
      var rest := s[EntityEnd(s)..];
      var r := StripEntities(rest);
      assert forall c :: c in rest ==> c in s;
      r
    else [s[0]] + StripEntities(s[1..])
  }

  /** No complete tag is left: no `<` has a `>` after it. */
  predicate TagFree(s: string)
    decreases |s|
  {
    s == [] || (!TagAt(s) && TagFree(s[1..]))
  }

  /** No complete entity is left: the regex matches nowhere in `s`. */
  predicate EntityFree(s: string)
    decreases |s|
  {
    s == [] || (!EntityAt(s) && EntityFree(s[1..]))
  }

  /** `stripHTML(str)` on a string. */
  function StripMarkup(s: string): string {
    StripEntities(StripTags(s))
  }

  /** `stripHTML(str)`: the empty string for anything that is not a string. */
  function StripHtml(input: Value): (r: string)
    ensures !input.Str? ==> r == ""
    ensures input.Str? ==> |r| <= |input.s| && forall c :: c in r ==> c in input.s
  {
    if input.Str? then StripMarkup(input.s) else ""
  }

  lemma {:induction false} TagFreeSuffix(s: string, k: nat)
    requires TagFree(s) && k <= |s|
    ensures TagFree(s[k..])
    decreases k
  {
    if k > 0 {
      TagFreeSuffix(s[1..], k - 1);
      assert s[1..][k - 1..] == s[k..];
    }
  }

  lemma {:induction false} TagFreePrefix(s: string, n: nat)
    requires TagFree(s) && n <= |s|
    ensures TagFree(s[..n])
    decreases |s|
  {
    if n > 0 {
      TagFreePrefix(s[1..], n - 1);
      assert s[..n][1..] == s[1..][..n - 1];
      assert forall c :: c in s[..n][1..] ==> c in s[1..];
    }
  }

  lemma {:induction false} EntityFreePrefix(s: string, n: nat)
    requires EntityFree(s) && n <= |s|
    ensures EntityFree(s[..n])
    decreases |s|
  {
    if n > 0 {
      var p := s[..n];
      EntityFreePrefix(s[1..], n - 1);
      assert p[1..] == s[1..][..n - 1];
      if p[0] == '&' && ';' in p[1..] {
        assert ';' in s[1..];
        assert IndexOf(s[1..], ';') == 0;
        assert p[1..][0] == ';';
      }
    }
  }

  /** One pass of the tag regex leaves no tag behind. */
  lemma {:induction false} StripTagsLeavesNoTag(s: string)
    ensures TagFree(StripTags(s))
    decreases |s|
  {
    if s == [] {
    } else if TagAt(s) {
      StripTagsLeavesNoTag(s[TagEnd(s)..]);
    } else {
      var r := StripTags(s[1..]);
      StripTagsLeavesNoTag(s[1..]);
      var out := [s[0]] + r;
      assert out[1..] == r;
      assert !TagAt(out);
    }
  }

  /** The tag pass changes nothing in a text without tags. */
  lemma {:induction false} StripTagsFixed(s: string)
    requires TagFree(s)
    ensures StripTags(s) == s
    decreases |s|
  {
    if s != [] {
      StripTagsFixed(s[1..]);
      assert s == [s[0]] + s[1..];
    }
  }

  /** One pass of the entity regex leaves no entity behind: an `&` it keeps is followed
      directly by `;` or by no `;` at all, and neither changes when later matches go. */
  lemma {:induction false} StripEntitiesLeavesNoEntity(s: string)
    ensures EntityFree(StripEntities(s))
    decreases |s|
  {
    if s == [] {
    } else if EntityAt(s) {
      StripEntitiesLeavesNoEntity(s[EntityEnd(s)..]);
    } else {
      var r := StripEntities(s[1..]);
      StripEntitiesLeavesNoEntity(s[1..]);
      var out := [s[0]] + r;
      assert out[1..] == r;
      if s[0] == '&' && ';' in s[1..] {
        assert s[1..][0] == ';';
        assert r == [';'] + StripEntities(s[1..][1..]);
        assert IndexOf(r, ';') == 0;
      }
      assert !EntityAt(out);
    }
  }

  /** The entity pass changes nothing in a text without entities. */
  lemma {:induction false} StripEntitiesFixed(s: string)
    requires EntityFree(s)
    ensures StripEntities(s) == s
    decreases |s|
  {
    if s != [] {
      StripEntitiesFixed(s[1..]);
      assert s == [s[0]] + s[1..];
    }
  }

  /** Removing entities cannot form a new tag. */
  lemma {:induction false} StripEntitiesKeepsTagFree(s: string)
    requires TagFree(s)
    ensures TagFree(StripEntities(s))
    decreases |s|
  {
    if s == [] {
    } else if EntityAt(s) {
      TagFreeSuffix(s, EntityEnd(s));
      StripEntitiesKeepsTagFree(s[EntityEnd(s)..]);
    } else {
      var r := StripEntities(s[1..]);
      StripEntitiesKeepsTagFree(s[1..]);
      var out := [s[0]] + r;
      assert out[1..] == r;
      assert !TagAt(out);
    }
  }

  /** What `stripHTML` returns holds neither a complete tag nor a complete entity. */
  lemma StripMarkupClean(s: string)
    ensures TagFree(StripMarkup(s)) && EntityFree(StripMarkup(s))
  {
    StripTagsLeavesNoTag(s);
    StripEntitiesKeepsTagFree(StripTags(s));
    StripEntitiesLeavesNoEntity(StripTags(s));
  }

  lemma StripMarkupFixed(s: string)
    requires TagFree(s) && EntityFree(s)
    ensures StripMarkup(s) == s
  {
    StripTagsFixed(s);
    StripEntitiesFixed(s);
  }

  /** `stripHTML(stripHTML(x)) === stripHTML(x)`: the single pass is already a fixed point,
      so repeating it until nothing changes would return the same text. */
  lemma StripHtmlIdempotent(input: Value)
    ensures StripHtml(Str(StripHtml(input))) == StripHtml(input)
  {
    if input.Str? {
      StripMarkupClean(input.s);
      StripMarkupFixed(StripMarkup(input.s));
    }
  }

  /** A text with no `<` and no `&` is left as it is. */
  lemma {:induction false} PlainTextIsClean(s: string)
    requires '<' !in s && '&' !in s
    ensures TagFree(s) && EntityFree(s)
    decreases |s|
  {
    if s != [] {
      PlainTextIsClean(s[1..]);
    }
  }

  /** Cutting a clean text short keeps it clean. */
  lemma CleanPrefix(s: string, n: nat)
    requires TagFree(s) && EntityFree(s)
    ensures TagFree(Prefix(s, n)) && EntityFree(Prefix(s, n))
  {
    var p := Prefix(s, n);
    TagFreePrefix(s, |p|);
    EntityFreePrefix(s, |p|);
  }

  // --- lower-casing commutes with the markup passes -------------------------

  lemma {:induction false} LowerFind(s: string, c: char)
    requires !('A' <= c <= 'Z') && !('a' <= c <= 'z')
    ensures (c in Lower(s)) <==> (c in s)
    ensures c in s ==> IndexOf(Lower(s), c) == IndexOf(s, c)
    decreases |s|
  {
    if s != [] {
      LowerFind(s[1..], c);
      LowerCons(s[0], s[1..]);
      assert s == [s[0]] + s[1..];
    }
  }

  lemma {:induction false} StripTagsLower(s: string)
    ensures StripTags(Lower(s)) == Lower(StripTags(s))
    decreases |s|
  {
    if s != [] {
      TagAtLower(s);
      if TagAt(s) {
        StripTagsLower(s[TagEnd(s)..]);
      } else {
        StripTagsLower(s[1..]);
        LowerCons(s[0], StripTags(s[1..]));
      }
    }
  }

  /** Lower-casing keeps every tag where it was, with the same length. */
  lemma TagAtLower(s: string)
    requires s != []
    ensures Lower(s)[1..] == Lower(s[1..]) && Lower(s)[0] == LowerChar(s[0])
    ensures TagAt(Lower(s)) <==> TagAt(s)
    ensures TagAt(s) ==> TagEnd(Lower(s)) == TagEnd(s) && Lower(s)[TagEnd(s)..] == Lower(s[TagEnd(s)..])
  {
    LowerSuffix(s, 1);
    LowerFind(s[1..], '>');
    if TagAt(s) {
      LowerSuffix(s, TagEnd(s));
    }
  }

  lemma {:induction false} StripEntitiesLower(s: string)
    ensures StripEntities(Lower(s)) == Lower(StripEntities(s))
    decreases |s|
  {
    if s != [] {
      EntityAtLower(s);
      if EntityAt(s) {
        StripEntitiesLower(s[EntityEnd(s)..]);
      } else {
        StripEntitiesLower(s[1..]);
        LowerCons(s[0], StripEntities(s[1..]));
      }
    }
  }

  /** Lower-casing keeps every entity where it was, with the same length. */
  lemma EntityAtLower(s: string)
    requires s != []
    ensures Lower(s)[1..] == Lower(s[1..]) && Lower(s)[0] == LowerChar(s[0])
    ensures EntityAt(Lower(s)) <==> EntityAt(s)
    ensures EntityAt(s) ==> EntityEnd(Lower(s)) == EntityEnd(s) && Lower(s)[EntityEnd(s)..] == Lower(s[EntityEnd(s)..])
  {
    LowerSuffix(s, 1);
    LowerFind(s[1..], ';');
    if EntityAt(s) {
      LowerSuffix(s, EntityEnd(s));
    }
  }

  /** Stripping markup and lower-casing can be done in either order. */
  lemma StripMarkupLower(s: string)
    ensures StripMarkup(Lower(s)) == Lower(StripMarkup(s))
  {
    StripTagsLower(s);
    StripEntitiesLower(StripTags(s));
  }

  // ---------------------------------------------------------------------------
  // truncateString and cleanAltitude
  // ---------------------------------------------------------------------------

  /** `truncateString(str, maxLength)`: the first `maxLength` characters of a string,
      the empty string for anything else. */
  function TruncateString(input: Value, maxLength: nat): (r: string)
    ensures |r| <= maxLength
    ensures !input.Str? ==> r == ""
    ensures input.Str? ==> StartsWith(input.s, r) && (|input.s| <= maxLength ==> r == input.s)
    ensures input.Str? && |input.s| > maxLength ==> |r| == maxLength
  {
    if input.Str? then Prefix(input.s, maxLength) else ""
  }

  /** The characters `/[^0-9\-\s]/g` does not match. */
  predicate IsAltitudeChar(c: char) {
    IsDigit(c) || c == '-' || IsSpace(c)
  }

  /** Every character of `s` is one that `/[^0-9\-\s]/g` keeps. */
  predicate AltitudeText(s: string) {
    forall i :: 0 <= i < |s| ==> IsAltitudeChar(s[i])
  }

  /** `s.replace(/[^0-9\-\s]/g, '')`: the altitude characters of `s`, in order. */
  function KeepAltitudeChars(s: string): (r: string)
    ensures |r| <= |s| && AltitudeText(r)
    ensures AltitudeText(s) ==> r == s
    decreases |s|
  {
    if s == [] then []
    else if IsAltitudeChar(s[0]) then [s[0]] + KeepAltitudeChars(s[1..])
    else KeepAltitudeChars(s[1..])
  }

  const MaxAltitudeLength: nat := 50

  /** `cleanAltitude(altitude)`: digits, hyphens and spaces only, trimmed, then cut to 50. */
  function CleanAltitude(altitude: Value): (r: string)
    ensures |r| <= MaxAltitudeLength && AltitudeText(r)
    ensures r == [] || !IsSpace(r[0])
    ensures !Truthy(altitude) ==> r == ""
  {
    if !Truthy(altitude) then ""
    else
      var kept := KeepAltitudeChars(StripHtml(Str(ToJsString(altitude))));
      var t := Trim(kept);
      TrimKeepsAltitude(kept);
      TruncateString(Str(t), MaxAltitudeLength)
  }

  /** Trimming only removes characters. */
  lemma TrimKeepsAltitude(s: string)
    requires AltitudeText(s)
    ensures AltitudeText(Trim(s))
  {
    var t := Trim(s);
    forall i | 0 <= i < |t| ensures IsAltitudeChar(t[i]) {
      assert t[i] in s;
    }
  }

  /** The altitudes cleaning leaves as they are: text of digits, hyphens and spaces, at most
      50 long, with no space at either end. */
  lemma CleanAltitudeFixed(s: string)
    requires AltitudeText(s) && |s| <= MaxAltitudeLength
    requires s == [] || (!IsSpace(s[0]) && !IsSpace(s[|s| - 1]))
    ensures CleanAltitude(Str(s)) == s
  {
    if s != [] {
      AltitudeTextIsClean(s);
      StripMarkupFixed(s);
      TrimFixed(s);
    }
  }

  /** Digits, hyphens and spaces hold no markup. */
  lemma AltitudeTextIsClean(s: string)
    requires AltitudeText(s)
    ensures TagFree(s) && EntityFree(s)
  {
    assert forall i :: 0 <= i < |s| ==> s[i] != '<' && s[i] != '&';
    PlainTextIsClean(s);
  }

  /** Cleaning what cleaning can return only trims it. */
  lemma CleanAltitudeOfCleaned(s: string)
    requires AltitudeText(s) && |s| <= MaxAltitudeLength
    ensures CleanAltitude(Str(s)) == Trim(s)
  {
    if s != [] {
      AltitudeTextIsClean(s);
      StripMarkupFixed(s);
    }
  }

  /** Cleaning an altitude a second time only trims it: cutting to 50 characters after
      trimming can leave trailing spaces, which the second pass removes. */
  lemma CleanAltitudeTwice(altitude: Value)
    ensures CleanAltitude(Str(CleanAltitude(altitude))) == Trim(CleanAltitude(altitude))
  {
    CleanAltitudeOfCleaned(CleanAltitude(altitude));
  }

  // ---------------------------------------------------------------------------
  // validateProcess
  // ---------------------------------------------------------------------------

  /** The known processing methods, in the order the partial match tries them. */
  const ValidProcesses: seq<string> :=
    ["washed", "natural", "honey", "anaerobic", "wet hulled", "semi-washed",
     "pulped natural", "carbonic maceration"]

  /** The answer for a missing, non-string or unrecognised process. */
  const DefaultProcess: string := "washed"

  /** `stripHTML(process).toLowerCase().trim()`. */
  function CleanProcess(s: string): string {
    Trim(Lower(StripMarkup(s)))
  }

  /** The first of `names` that `cleaned` contains, if any. */
  function FirstContained(cleaned: string, names: seq<string>): (k: Option<nat>)
    ensures k.Some? ==> k.value < |names| && Contains(cleaned, names[k.value])
    ensures k.Some? ==> forall j :: 0 <= j < k.value ==> !Contains(cleaned, names[j])
    ensures k.None? ==> forall j :: 0 <= j < |names| ==> !Contains(cleaned, names[j])
  {
    if names == [] then None
    else if Contains(cleaned, names[0]) then Some(0)
    else
      match FirstContained(cleaned, names[1..])
      case None => None
      case Some(k) => Some(k + 1)
  }

  /** The first name contained is the one before which none is. */
  lemma {:induction false} FirstContainedAt(cleaned: string, names: seq<string>, i: nat)
    requires i <= |names| && forall j :: 0 <= j < i ==> !Contains(cleaned, names[j])
    ensures i < |names| && Contains(cleaned, names[i]) ==> FirstContained(cleaned, names) == Some(i)
    ensures i == |names| ==> FirstContained(cleaned, names) == None
    decreases i
  {
    if i > 0 {
      FirstContainedAt(cleaned, names[1..], i - 1);
    }
  }

  /** What `validateProcess` returns: the cleaned text when it is a known process, else the
      first known process it contains, else the default. */
  function ProcessOf(process: Value): (r: string)
    ensures r in ValidProcesses
    ensures !process.Str? || process.s == "" ==> r == DefaultProcess
  {
    if !Truthy(process) || !process.Str? then DefaultProcess
    else
      var cleaned := CleanProcess(process.s);
      if cleaned in ValidProcesses then cleaned
      else match FirstContained(cleaned, ValidProcesses)
        case Some(k) => ValidProcesses[k]
        case None => DefaultProcess
  }

  /** Which process a non-empty string validates to: the cleaned text when it is a known
      process, otherwise the first known process it contains with none earlier contained, and
      the default only when it contains none. */
  lemma ProcessOfChoice(s: string)
    requires s != ""
    ensures CleanProcess(s) in ValidProcesses ==> ProcessOf(Str(s)) == CleanProcess(s)
    ensures CleanProcess(s) !in ValidProcesses ==>
      (exists k :: 0 <= k < |ValidProcesses| && ProcessOf(Str(s)) == ValidProcesses[k]
         && Contains(CleanProcess(s), ValidProcesses[k])
         && forall j :: 0 <= j < k ==> !Contains(CleanProcess(s), ValidProcesses[j]))
      || (ProcessOf(Str(s)) == DefaultProcess
         && forall j :: 0 <= j < |ValidProcesses| ==> !Contains(CleanProcess(s), ValidProcesses[j]))
  {
    var cleaned := CleanProcess(s);
    var found := FirstContained(cleaned, ValidProcesses);
    assert Truthy(Str(s));
    if cleaned !in ValidProcesses {
      if found.Some? {
        var k := found.value;
        assert ProcessOf(Str(s)) == ValidProcesses[k];
        assert 0 <= k < |ValidProcesses| && Contains(cleaned, ValidProcesses[k]);
      } else {
        assert ProcessOf(Str(s)) == DefaultProcess;
      }
    }
  }

  /** `validateProcess(process)`, with its loop over the known processes. */
  method ValidateProcess(process: Value) returns (r: string)
    ensures r == ProcessOf(process)
    ensures r in ValidProcesses
  {
    if !Truthy(process) || !process.Str? {
      return DefaultProcess;
    }
    var cleaned := CleanProcess(process.s);
    if cleaned in ValidProcesses {
      return cleaned;
    }
    var k := FindContained(cleaned, ValidProcesses);
    r := if k.Some? then ValidProcesses[k.value] else DefaultProcess;
  }

  /** The loop of `validateProcess`: the index of the first of `names` that `cleaned` contains. */
  method FindContained(cleaned: string, names: seq<string>) returns (k: Option<nat>)
    ensures k == FirstContained(cleaned, names)
  {
    for i := 0 to |names|
      invariant forall j :: 0 <= j < i ==> !Contains(cleaned, names[j])
    {
      if Contains(cleaned, names[i]) {
        FirstContainedAt(cleaned, names, i);
        return Some(i);
      }
    }
    FirstContainedAt(cleaned, names, |names|);
    return None;
  }

  /** The process check ignores the case the process was written in. */
  lemma ProcessIgnoresCase(a: string, b: string)
    requires Lower(a) == Lower(b)
    ensures ProcessOf(Str(a)) == ProcessOf(Str(b))
  {
    StripMarkupLower(a);
    StripMarkupLower(b);
    LowerIdempotent(StripMarkup(a));
    LowerIdempotent(StripMarkup(b));
    assert Lower(StripMarkup(a)) == Lower(StripMarkup(b)) by {
      calc {
        Lower(StripMarkup(a));
        StripMarkup(Lower(a));
        StripMarkup(Lower(b));
        Lower(StripMarkup(b));
      }
    }
    assert |a| == |Lower(a)| == |b|;
  }

  /** Lower-case letters, spaces and hyphens, with a letter at each end. */
  predicate PlainName(q: string) {
    q != [] && 'a' <= q[0] <= 'z' && 'a' <= q[|q| - 1] <= 'z'
    && forall i :: 0 <= i < |q| ==> ('a' <= q[i] <= 'z' || q[i] == ' ' || q[i] == '-')
  }

  lemma AllProcessesPlain()
    ensures forall q :: q in ValidProcesses ==> PlainName(q)
  {
    FirstProcessesPlain();
    LastProcessesPlain();
  }

  lemma FirstProcessesPlain()
    ensures PlainName("washed") && PlainName("natural") && PlainName("honey") && PlainName("anaerobic")
  {
    assert PlainName("washed");
    assert PlainName("natural");
    assert PlainName("honey");
  }

  lemma LastProcessesPlain()
    ensures PlainName("wet hulled") && PlainName("semi-washed") && PlainName("pulped natural") && PlainName("carbonic maceration")
  {
    assert PlainName("wet hulled");
    assert PlainName("semi-washed");
    assert PlainName("pulped natural");
  }

  /** A plain name is its own cleaned form. */
  lemma PlainNameIsCleaned(q: string)
    requires PlainName(q)
    ensures CleanProcess(q) == q
  {
    PlainNameChars(q);
    PlainTextIsClean(q);
    StripMarkupFixed(q);
    LowerFixed(q);
    TrimFixed(q);
  }

  /** A plain name holds no markup character and no upper-case letter. */
  lemma PlainNameChars(q: string)
    requires PlainName(q)
    ensures '<' !in q && '&' !in q
    ensures forall i :: 0 <= i < |q| ==> LowerChar(q[i]) == q[i]
    ensures !IsSpace(q[0]) && !IsSpace(q[|q| - 1])
  {
    assert forall i :: 0 <= i < |q| ==> q[i] != '<' && q[i] != '&';
  }

  /** Each known process is its own answer, so validating a validated process changes nothing. */
  lemma ValidProcessIsFixed(p: string)
    requires p in ValidProcesses
    ensures ProcessOf(Str(p)) == p
  {
    AllProcessesPlain();
    assert PlainName(p);
    PlainNameIsCleaned(p);
    assert Truthy(Str(p)) && CleanProcess(p) == p;
  }

  // ---------------------------------------------------------------------------
  // sanitizeCoffeeData
  // ---------------------------------------------------------------------------

  /** The free-text fields, in the order they are processed. */
  const TextFields: seq<string> := ["name", "origin", "cultivar", "roaster", "tastingNotes"]

  /** The length limit of a free-text field. */
  function TextLimit(field: string): nat {
    if field == "tastingNotes" then 500 else 200
  }

  /** The fields copied unchanged when present. */
  const PassThroughFields: seq<string> := ["addedDate", "id", "savedAt", "createdAt", "updatedAt"]

  /** Every field a sanitised document can hold, in the order they are written. */
  const SanitizedFields: seq<string> := TextFields + ["process", "altitude"] + PassThroughFields

  /** `value !== undefined && value !== null`. */
  predicate IsPresent(v: Value) {
    !v.Undefined? && !v.Null?
  }

  /** `truncateString(stripHTML(String(value)), maxLength)`. */
  function CleanText(v: Value, maxLength: nat): string {
    TruncateString(Str(StripHtml(Str(ToJsString(v)))), maxLength)
  }

  /** Whether the sanitised document gets field `f`: a text field when the input holds
      something other than `null` or `undefined` there, any other field when the input
      defines it. */
  predicate Kept(data: Value, f: string) {
    if f in TextFields then IsPresent(Get(data, f)) else !Get(data, f).Undefined?
  }

  /** What the sanitised document holds in field `f`. */
  function FieldValue(data: Value, f: string): Value {
    if f in TextFields then Str(CleanText(Get(data, f), TextLimit(f)))
    else if f == "process" then Str(ProcessOf(Get(data, "process")))
    else if f == "altitude" then Str(CleanAltitude(Get(data, "altitude")))
    else Get(data, f)
  }

  /** The part of the sanitised document that covers `fields`. */
  function Part(data: Value, fields: seq<string>): map<string, Value> {
    map f | f in fields && Kept(data, f) :: FieldValue(data, f)
  }

  /** The fields of the object `sanitizeCoffeeData(data)` builds. */
  function SanitizedOf(data: Value): map<string, Value> {
    if !Truthy(data) || !IsObject(data) then map[] else Part(data, SanitizedFields)
  }

  lemma PartStep(data: Value, fields: seq<string>, f: string)
    ensures Part(data, fields + [f]) ==
      if Kept(data, f) then Part(data, fields)[f := FieldValue(data, f)] else Part(data, fields)
  {
    assert forall g :: g in fields + [f] <==> g in fields || g == f;
  }

  lemma PartNone(data: Value)
    ensures Part(data, []) == map[]
  {
  }

  lemma FieldGroupsDistinct()
    ensures "process" !in TextFields && "altitude" !in TextFields
    ensures forall i :: 0 <= i < |PassThroughFields| ==> PassThroughFields[i] !in TextFields
  {
  }

  /** The loop over the free-text fields of `sanitizeCoffeeData`. */
  method SanitizeTextFields(coffeeData: Value) returns (sanitized: map<string, Value>)
    ensures sanitized == Part(coffeeData, TextFields)
  {
    sanitized := map[];
    PartNone(coffeeData);
    assert TextFields[..0] == [];
    for i := 0 to |TextFields|
      invariant sanitized == Part(coffeeData, TextFields[..i])
    {
      var field := TextFields[i];
      var value := Get(coffeeData, field);
      PartStep(coffeeData, TextFields[..i], field);
      assert TextFields[..i + 1] == TextFields[..i] + [field];
      if IsPresent(value) {
        var stripped := StripHtml(Str(ToJsString(value)));
        sanitized := sanitized[field := Str(TruncateString(Str(stripped), TextLimit(field)))];
      }
    }
    assert TextFields[..|TextFields|] == TextFields;
  }

  /** The loop over the pass-through fields of `sanitizeCoffeeData`, extending the part that
      covers `done`. */
  method CopyPassThroughFields(coffeeData: Value, ghost done: seq<string>, before: map<string, Value>)
    returns (sanitized: map<string, Value>)
    requires before == Part(coffeeData, done)
    ensures sanitized == Part(coffeeData, done + PassThroughFields)
  {
    sanitized := before;
    FieldGroupsDistinct();
    assert done + PassThroughFields[..0] == done;
    for i := 0 to |PassThroughFields|
      invariant sanitized == Part(coffeeData, done + PassThroughFields[..i])
    {
      var field := PassThroughFields[i];
      PartStep(coffeeData, done + PassThroughFields[..i], field);
      assert done + PassThroughFields[..i + 1] == done + PassThroughFields[..i] + [field];
      if !Get(coffeeData, field).Undefined? {
        sanitized := sanitized[field := Get(coffeeData, field)];
      }
    }
    assert PassThroughFields[..|PassThroughFields|] == PassThroughFields;
  }

  /** `sanitizeCoffeeData(coffeeData)`: a fresh object with the cleaned fields. */
  method SanitizeCoffeeData(coffeeData: Value) returns (r: Value)
    ensures r == Obj(SanitizedOf(coffeeData))
  {
    if !Truthy(coffeeData) || !IsObject(coffeeData) {
      return Obj(map[]);
    }
    var sanitized := SanitizeTextFields(coffeeData);
    FieldGroupsDistinct();
    PartStep(coffeeData, TextFields, "process");
    if !Get(coffeeData, "process").Undefined? {
      var p := ValidateProcess(Get(coffeeData, "process"));
      sanitized := sanitized["process" := Str(p)];
    }
    assert sanitized == Part(coffeeData, TextFields + ["process"]);
    PartStep(coffeeData, TextFields + ["process"], "altitude");
    if !Get(coffeeData, "altitude").Undefined? {
      sanitized := sanitized["altitude" := Str(CleanAltitude(Get(coffeeData, "altitude")))];
    }
    assert sanitized == Part(coffeeData, TextFields + ["process"] + ["altitude"]);
    assert TextFields + ["process"] + ["altitude"] + PassThroughFields == SanitizedFields;
    sanitized := CopyPassThroughFields(coffeeData, TextFields + ["process"] + ["altitude"], sanitized);
    return Obj(sanitized);
  }

  /** Which fields a sanitised document holds: only the known ones, and of those exactly the
      ones `Kept` names. */
  lemma SanitizedFieldsOf(data: Value, f: string)
    ensures f in SanitizedOf(data) <==> IsObject(data) && f in SanitizedFields && Kept(data, f)
    ensures f in SanitizedOf(data) ==> SanitizedOf(data)[f] == FieldValue(data, f)
  {
  }

  lemma CleanTextIsClean(v: Value, maxLength: nat)
    ensures |CleanText(v, maxLength)| <= maxLength
    ensures TagFree(CleanText(v, maxLength)) && EntityFree(CleanText(v, maxLength))
  {
    StripMarkupClean(ToJsString(v));
    CleanPrefix(StripHtml(Str(ToJsString(v))), maxLength);
  }

  /** The pass-through fields are neither text fields nor `process` nor `altitude`. */
  lemma PassThroughDisjoint(f: string)
    requires f in PassThroughFields
    ensures f !in TextFields && f != "process" && f != "altitude"
  {
    assert f[0] in "aisuc";
    assert forall t :: t in TextFields ==> t[0] in "nocrt";
  }

  /** What a sanitised document holds: every text field is a string free of tags and
      entities and within its limit, the process is a known one, the altitude is cleaned, and
      the pass-through fields are the input's own values. */
  lemma SanitizedFieldIsClean(data: Value, f: string)
    requires f in SanitizedOf(data)
    ensures f in TextFields ==>
      SanitizedOf(data)[f].Str? && |SanitizedOf(data)[f].s| <= TextLimit(f)
      && TagFree(SanitizedOf(data)[f].s) && EntityFree(SanitizedOf(data)[f].s)
    ensures f == "process" ==> SanitizedOf(data)[f].Str? && SanitizedOf(data)[f].s in ValidProcesses
    ensures f == "altitude" ==>
      SanitizedOf(data)[f].Str?
      && |SanitizedOf(data)[f].s| <= MaxAltitudeLength && AltitudeText(SanitizedOf(data)[f].s)
    ensures f in PassThroughFields ==> SanitizedOf(data)[f] == Get(data, f)
  {
    SanitizedFieldsOf(data, f);
    if f in TextFields {
      CleanTextIsClean(Get(data, f), TextLimit(f));
    }
    if f in PassThroughFields {
      PassThroughDisjoint(f);
    }
  }

  /** A cleaned text field is unchanged by cleaning it again. */
  lemma CleanTextIdempotent(v: Value, maxLength: nat)
    ensures CleanText(Str(CleanText(v, maxLength)), maxLength) == CleanText(v, maxLength)
  {
    var t := CleanText(v, maxLength);
    CleanTextIsClean(v, maxLength);
    StripMarkupFixed(t);
  }

  /** Sanitising a field of a sanitised document again gives the same value, except that an
      altitude cut inside a run of spaces loses its trailing spaces. */
  lemma SanitizeFieldTwice(data: Value, f: string)
    ensures f in SanitizedOf(Obj(SanitizedOf(data))) <==> f in SanitizedOf(data)
    ensures f in SanitizedOf(data) && f != "altitude" ==>
      SanitizedOf(Obj(SanitizedOf(data)))[f] == SanitizedOf(data)[f]
    ensures f == "altitude" && f in SanitizedOf(data) ==>
      SanitizedOf(Obj(SanitizedOf(data)))[f] == Str(Trim(SanitizedOf(data)[f].s))
  {
    var s := SanitizedOf(data);
    SanitizedFieldsOf(data, f);
    SanitizedFieldsOf(Obj(s), f);
    if f in s {
      FieldValueTwice(data, f, Obj(s));
    }
  }

  /** A document `again` that holds the cleaned value of field `f` cleans it to itself. */
  lemma FieldValueTwice(data: Value, f: string, again: Value)
    requires f in SanitizedFields && Kept(data, f) && Get(again, f) == FieldValue(data, f)
    ensures Kept(again, f)
    ensures f != "altitude" ==> FieldValue(again, f) == FieldValue(data, f)
    ensures f == "altitude" ==> FieldValue(again, f) == Str(Trim(FieldValue(data, f).s))
  {
    if f in TextFields {
      CleanTextIdempotent(Get(data, f), TextLimit(f));
    } else if f == "process" {
      ValidProcessIsFixed(ProcessOf(Get(data, "process")));
    } else if f == "altitude" {
      CleanAltitudeTwice(Get(data, "altitude"));
    }
  }

  /** Sanitising a sanitised document again keeps the same fields and values, except for the
      trailing spaces of an altitude. */
  lemma SanitizeTwice(data: Value)
    ensures SanitizedOf(Obj(SanitizedOf(data))).Keys == SanitizedOf(data).Keys
    ensures forall f :: f in SanitizedOf(data) && f != "altitude" ==>
      SanitizedOf(Obj(SanitizedOf(data)))[f] == SanitizedOf(data)[f]
  {
    forall f ensures f in SanitizedOf(Obj(SanitizedOf(data))) <==> f in SanitizedOf(data) {
      SanitizeFieldTwice(data, f);
    }
    forall f | f in SanitizedOf(data) && f != "altitude"
      ensures SanitizedOf(Obj(SanitizedOf(data)))[f] == SanitizedOf(data)[f]
    {
      SanitizeFieldTwice(data, f);
    }
  }
}
