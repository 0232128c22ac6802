/**
 * The JavaScript values that request bodies, query strings and stored coffee documents
 * are made of, with the few runtime rules the handlers depend on: truthiness, `a || b`,
 * optional property reads `v?.key`, object spread, `String(v)`, `v > 0`, and
 * `JSON.stringify` of a string.
 */
module JsValue {
  import opened Text

  /** A JavaScript number, represented by its canonical rendering `String(n)`
      ("0" for both zeros, "NaN", "Infinity", "-Infinity", "1.5", "-3", "1e+21", ...). */
  datatype Number = Number(text: string) {
    predicate IsFinite() {
      text != "NaN" && text != "Infinity" && text != "-Infinity"
    }

    /** `n > 0`. */
    predicate IsPositive() {
      text != "NaN" && text != "0" && !StartsWith(text, "-")
    }
  }

  /** A JSON-shaped value as a handler sees it. Objects are maps from property names
      to values; insertion order of properties is not represented. */
  datatype Value =
    | Undefined
    | Null
    | Bool(b: bool)
    | Num(n: Number)
    | Str(s: string)
    | Arr(items: seq<Value>)
    | Obj(fields: map<string, Value>)

  /** The number `n` for a non-negative integer, such as a row id or an array length. */
  function NumberOf(n: nat): (v: Value)
    ensures v.Num? && v.n.IsFinite()
  {
    var t := NatToString(n);
    assert IsDigit(t[0]) && IsDigit(t[|t| - 1]);
    assert t != "NaN" && t != "Infinity" && t != "-Infinity" by {
      assert "NaN"[0] == 'N' && "Infinity"[0] == 'I' && "-Infinity"[0] == '-';
    }
    Num(Number(t))
  }

  /** JavaScript truthiness: `undefined`, `null`, `false`, `0`, `NaN` and `""` are falsy. */
  predicate Truthy(v: Value) {
    match v
    case Undefined => false
    case Null => false
    case Bool(b) => b
    case Num(n) => n.text != "0" && n.text != "NaN"
    case Str(s) => s != ""
    case Arr(_) => true
    case Obj(_) => true
  }

  /** `a || b`. */
  function Or(a: Value, b: Value): (r: Value)
    ensures Truthy(a) ==> r == a
    ensures !Truthy(a) ==> r == b
  {
    if Truthy(a) then a else b
  }

  /** `typeof v === 'object' && v !== null`: objects and arrays. */
  predicate IsObject(v: Value) {
    v.Obj? || v.Arr?
  }

  /** `v?.[key]`: a property read that yields `undefined` on `null`, `undefined`,
      primitives without that property, and absent keys. Arrays and strings have a
      `length`; the index properties of arrays and strings are not represented. */
  function Get(v: Value, key: string): Value {
    match v
    case Obj(fields) => if key in fields then fields[key] else Undefined
    case Arr(items) => if key == "length" then NumberOf(|items|) else Undefined
    case Str(s) => if key == "length" then NumberOf(|s|) else Undefined
    case _ => Undefined
  }

  /** The own enumerable properties that an object spread `{...v}` copies: the fields of an
      object, the elements of an array and the characters of a string under their decimal
      indices, and nothing from any other value. */
  function SpreadOf(v: Value): map<string, Value> {
    match v
    case Obj(fields) => fields
    case Arr(items) => Indexed(items)
    case Str(s) => Indexed(Chars(s))
    case _ => map[]
  }

  /** The one-character strings of `s`, in order. */
  function Chars(s: string): (r: seq<Value>)
    ensures |r| == |s| && forall i :: 0 <= i < |s| ==> r[i] == Str([s[i]])
  {
    seq(|s|, i requires 0 <= i < |s| => Str([s[i]]))
  }

  /** `items` keyed by index: the key `String(i)` holds `items[i]` (see `IndexedAt`). */
  function Indexed(items: seq<Value>): map<string, Value> {
    if items == [] then map[] else Indexed(items[..|items| - 1])[NatToString(|items| - 1) := items[|items| - 1]]
  }

  /** The key `String(i)` of `Indexed(items)` holds `items[i]`. */
  lemma {:induction false} IndexedHas(items: seq<Value>, i: nat)
    requires i < |items|
    ensures NatToString(i) in Indexed(items) && Indexed(items)[NatToString(i)] == items[i]
    decreases |items|
  {
    var n := |items| - 1;
    if i < n {
      var prev := items[..n];
      IndexedHas(prev, i);
      NatToStringInjective(i, n);
      assert prev[i] == items[i];
    }
  }

  /** `Indexed(items)` has no key but the indices of `items`. */
  lemma {:induction false} IndexedOnly(items: seq<Value>, k: string)
    requires k in Indexed(items)
    ensures exists i :: 0 <= i < |items| && k == NatToString(i)
    decreases |items|
  {
    var n := |items| - 1;
    if k != NatToString(n) {
      IndexedOnly(items[..n], k);
    }
  }

  /** Every key `Indexed(items)` has starts with a digit. */
  lemma {:induction false} IndexedDigits(items: seq<Value>)
    ensures forall k :: k in Indexed(items) ==> k != [] && IsDigit(k[0])
    decreases |items|
  {
    if items != [] {
      IndexedDigits(items[..|items| - 1]);
    }
  }

  /** What an array or a string spreads is keyed by indices, so no key that starts with
      anything but a digit: no `id`, no `name`, no `savedAt`. */
  lemma SpreadIndexKeys(v: Value)
    ensures !v.Obj? ==> forall k :: k in SpreadOf(v) ==> k != [] && IsDigit(k[0])
  {
    match v
    case Arr(items) => IndexedDigits(items);
    case Str(s) => IndexedDigits(Chars(s));
    case _ =>
  }

  /**
   * `v > 0`: the value converted by `ToNumber` is positive. Strings are read as numeric
   * literals after trimming, arrays by way of `String(v)`; `true` is 1; `undefined`, `null`
   * and plain objects are not positive.
   */
  predicate GreaterThanZero(v: Value) {
    match v
    case Num(n) => n.IsPositive()
    case Bool(b) => b
    case Str(s) => PositiveNumeral(Trim(s))
    case Arr(_) => PositiveNumeral(Trim(ToJsString(v)))
    case _ => false
  }

  /**
   * A trimmed string whose numeric value (ECMA-262, `StringToNumber`) is positive: a
   * hexadecimal, octal or binary integer literal with a nonzero digit, `Infinity` or
   * `+Infinity`, or an unsigned or `+`-signed decimal literal with a nonzero digit.
   */
  predicate PositiveNumeral(t: string) {
    if |t| >= 2 && t[0] == '0' && t[1] in "xXoObB" then
      var digits := if t[1] in "xX" then "0123456789abcdefABCDEF" else if t[1] in "oO" then "01234567" else "01";
      var body := t[2..];
      body != [] && (forall i :: 0 <= i < |body| ==> body[i] in digits) && HasNonzero(body)
    else
      var u := if t != [] && (t[0] == '+' || t[0] == '-') then t[1..] else t;
      !(t != [] && t[0] == '-')
      && (u == "Infinity" || (DecimalLiteral(u) && HasNonzero(u[..MantissaEnd(u)])))
  }

  /** A digit other than `0` occurs (`.` is not a digit). */
  predicate HasNonzero(s: string) {
    exists i :: 0 <= i < |s| && s[i] != '0' && s[i] != '.'
  }

  /** The length of the longest prefix made of digits and dots. */
  function MantissaEnd(u: string): (k: nat)
    ensures k <= |u|
  {
    if u != [] && (IsDigit(u[0]) || u[0] == '.') then 1 + MantissaEnd(u[1..]) else 0
  }

  /** One or more decimal digits. */
  predicate IsDigits(s: string) {
    s != [] && forall i :: 0 <= i < |s| ==> IsDigit(s[i])
  }

  /** `DecimalDigits . DecimalDigits?`, `. DecimalDigits` or `DecimalDigits`. */
  predicate Mantissa(m: string) {
    if '.' in m then
      var k := IndexOf(m, '.');
      var whole, fraction := m[..k], m[k + 1..];
      (whole != [] || fraction != []) && (whole == [] || IsDigits(whole)) && (fraction == [] || IsDigits(fraction))
    else IsDigits(m)
  }

  /** An unsigned decimal literal: a mantissa, then optionally `e` or `E`, a sign and digits. */
  predicate DecimalLiteral(u: string) {
    var k := MantissaEnd(u);
    Mantissa(u[..k])
    && (k == |u| || (u[k] in "eE" && var x := u[k + 1..]; IsDigits(x) || (x != [] && x[0] in "+-" && IsDigits(x[1..]))))
  }

  /** The decimal text of a count is greater than zero exactly when the count is, both as
      a number and as a string: `"0"` is the only rendering that is not. */
  lemma PositiveCountText(n: nat)
    ensures GreaterThanZero(NumberOf(n)) <==> n > 0
    ensures GreaterThanZero(Str(NatToString(n))) <==> n > 0
  {
    PositiveCountNumber(n);
    PositiveCountString(n);
  }

  lemma PositiveCountNumber(n: nat)
    ensures GreaterThanZero(NumberOf(n)) <==> n > 0
  {
    var t := NatToString(n);
    assert IsDigit(t[0]);
    assert !StartsWith(t, "-") by {
      assert t[0] != '-';
    }
    NonzeroCount(n);
  }

  lemma PositiveCountString(n: nat)
    ensures GreaterThanZero(Str(NatToString(n))) <==> n > 0
  {
    NonzeroCount(n);
    DigitsGreaterThanZero(NatToString(n));
  }

  /** A string of digits is greater than zero exactly when one digit is not `0`. */
  lemma DigitsGreaterThanZero(t: string)
    requires t != [] && forall i :: 0 <= i < |t| ==> IsDigit(t[i])
    ensures GreaterThanZero(Str(t)) <==> HasNonzero(t)
  {
    assert !IsSpace(t[0]) && !IsSpace(t[|t| - 1]);
    TrimFixed(t);
    DigitsPositive(t);
  }

  /** Only the rendering of zero lacks a nonzero digit. */
  lemma NonzeroCount(n: nat)
    ensures HasNonzero(NatToString(n)) <==> n > 0
    ensures NatToString(n) == "0" <==> n == 0
  {
    var t := NatToString(n);
    if n > 0 {
      NatToStringNonzero(n);
      var i :| 0 <= i < |t| && t[i] != '0' && t[i] != '.';
      assert t != "0";
    } else {
      assert t == "0";
    }
  }

  /** A run of digits is positive as a numeral exactly when one of them is not `0`. */
  lemma DigitsPositive(t: string)
    requires t != [] && forall i :: 0 <= i < |t| ==> IsDigit(t[i])
    ensures PositiveNumeral(t) <==> HasNonzero(t)
  {
    DigitsMantissa(t);
    assert t[0] != '+' && t[0] != '-';
    assert t != "Infinity" by {
      assert IsDigit(t[0]);
    }
  }

  /** A run of digits is one whole decimal literal that is not hexadecimal, octal or binary. */
  lemma {:induction false} DigitsMantissa(t: string)
    requires t != [] && forall i :: 0 <= i < |t| ==> IsDigit(t[i])
    ensures MantissaEnd(t) == |t| && DecimalLiteral(t)
    ensures !(|t| >= 2 && t[0] == '0' && t[1] in "xXoObB")
    decreases |t|
  {
    if |t| > 1 {
      DigitsMantissa(t[1..]);
    }
    assert '.' !in t;
    assert t[..|t|] == t;
  }

  /** The rendering of a positive number has a nonzero digit. */
  lemma {:induction false} NatToStringNonzero(n: nat)
    requires n > 0
    ensures HasNonzero(NatToString(n))
    decreases n
  {
    var t := NatToString(n);
    if n < 10 {
      assert t[0] != '0' && t[0] != '.';
    } else if n % 10 != 0 {
      assert t[|t| - 1] == Digit(n % 10);
    } else {
      NatToStringNonzero(n / 10);
      var p := NatToString(n / 10);
      var i :| 0 <= i < |p| && p[i] != '0' && p[i] != '.';
      assert t[i] == p[i];
    }
  }

  /** `String(v)`. */
  function ToJsString(v: Value): string {
    match v
    case Undefined => "undefined"
    case Null => "null"
    case Bool(b) => if b then "true" else "false"
    case Num(n) => n.text
    case Str(s) => s
    case Arr(items) => JoinItems(items, v)
    case Obj(_) => "[object Object]"
  }

  /** `items.join(",")` for the elements of the array `whole`: `null` and `undefined` elements
      contribute the empty string. */
  function JoinItems(items: seq<Value>, ghost whole: Value): string
    requires forall i :: 0 <= i < |items| ==> items[i] < whole
    decreases whole, |items|
  {
    if items == [] then ""
    else
      var first := if items[0].Null? || items[0].Undefined? then "" else ToJsString(items[0]);
      if |items| == 1 then first else first + "," + JoinItems(items[1..], whole)
  }

  /** The hexadecimal digit `d`, lower case as `JSON.stringify` writes it. */
  function HexDigit(d: nat): char
    requires d < 16
  {
    "0123456789abcdef"[d]
  }

  /** One character of a JSON string literal: the quote, the backslash and the control
      characters are escaped, every other character stands for itself. */
  function JsonEscape(c: char): string {
    if c == '"' then "\\\""
    else if c == '\\' then "\\\\"
    else if c == '\n' then "\\n"
    else if c == '\r' then "\\r"
    else if c == '\t' then "\\t"
    else if c == '\U{08}' then "\\b"
    else if c == '\U{0C}' then "\\f"
    else if c < ' ' then "\\u00" + [HexDigit(c as nat / 16), HexDigit(c as nat % 16)]
    else [c]
  }

  /** `JSON.stringify(s)` for a string `s`: the quoted, escaped literal (RFC 8259, section 7). */
  function JsonQuote(s: string): (r: string)
    ensures |r| >= 2 && r[0] == '"' && r[|r| - 1] == '"'
  {
    "\"" + JsonEscapeAll(s) + "\""
  }

  function JsonEscapeAll(s: string): string {
    if s == [] then "" else JsonEscape(s[0]) + JsonEscapeAll(s[1..])
  }
}
