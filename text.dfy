/**
 * String operations of the JavaScript runtime that the backend relies on:
 * `trim`, `toLowerCase`/`toUpperCase` (and SQL `LOWER`), `startsWith`, `includes`,
 * `substring`/`slice` from 0, `split` on one character, and the decimal rendering of
 * non-negative integers. Strings are sequences of Unicode scalar values.
 */
module Text {

  /** The code points `String.prototype.trim` removes and the regex class `\s` matches:
      ECMAScript WhiteSpace (tab, vertical tab, form feed, space, no-break space, the
      byte-order mark, the Zs category) and LineTerminator (LF, CR, U+2028, U+2029). */
  predicate IsSpace(c: char) {
    c == '\t' || c == '\n' || c == '\U{0B}' || c == '\U{0C}' || c == '\r' || c == ' '
    || c == '\U{A0}' || c == '\U{1680}' || ('\U{2000}' <= c <= '\U{200A}')
    || c == '\U{2028}' || c == '\U{2029}' || c == '\U{202F}' || c == '\U{205F}'
    || c == '\U{3000}' || c == '\U{FEFF}'
  }

  predicate IsDigit(c: char) {
    '0' <= c <= '9'
  }

  function TrimStart(s: string): (r: string)
    ensures |r| <= |s| && r == s[|s| - |r|..]
    ensures r == [] || !IsSpace(r[0])
  {
    if s != [] && IsSpace(s[0]) then TrimStart(s[1..]) else s
  }

  function TrimEnd(s: string): (r: string)
    ensures |r| <= |s| && r == s[..|r|]
    ensures r == [] || !IsSpace(r[|r| - 1])
  {
    if s != [] && IsSpace(s[|s| - 1]) then TrimEnd(s[..|s| - 1]) else s
  }

  /** `s.trim()`: `s` without its leading and trailing spaces. */
  function Trim(s: string): (r: string)
    ensures |r| <= |s|
    ensures r == [] || (!IsSpace(r[0]) && !IsSpace(r[|r| - 1]))
    ensures forall c :: c in r ==> c in s
  {
    var t := TrimStart(s);
    var r := TrimEnd(t);
    assert r != [] ==> r[0] == t[0];
    r
  }

  /** Trimming a trimmed string changes nothing. */
  lemma TrimIdempotent(s: string)
    ensures Trim(Trim(s)) == Trim(s)
  {
    var r := Trim(s);
    assert TrimStart(r) == r;
    assert TrimEnd(r) == r;
  }

  /** A string with no space at either end is its own trimmed form. */
  lemma TrimFixed(s: string)
    requires s == [] || (!IsSpace(s[0]) && !IsSpace(s[|s| - 1]))
    ensures Trim(s) == s
  {
    assert TrimStart(s) == s;
    assert TrimEnd(s) == s;
  }

  function LowerChar(c: char): char {
    if 'A' <= c <= 'Z' then (c as int + 32) as char else c
  }

  function UpperChar(c: char): char {
    if 'a' <= c <= 'z' then (c as int - 32) as char else c
  }

  /** `s.toLowerCase()` and SQL `LOWER`, on the ASCII letters. */
  function Lower(s: string): (r: string)
    ensures |r| == |s| && forall i :: 0 <= i < |s| ==> r[i] == LowerChar(s[i])
  {
    seq(|s|, i requires 0 <= i < |s| => LowerChar(s[i]))
  }

  /** `s.toUpperCase()`, on the ASCII letters. */
  function Upper(s: string): (r: string)
    ensures |r| == |s| && forall i :: 0 <= i < |s| ==> r[i] == UpperChar(s[i])
  {
    seq(|s|, i requires 0 <= i < |s| => UpperChar(s[i]))
  }

  /** Lower-casing ignores the case the input was written in. */
  lemma LowerOfUpper(s: string)
    ensures Lower(Upper(s)) == Lower(s)
  {
    forall i | 0 <= i < |s| ensures Lower(Upper(s))[i] == Lower(s)[i] {
      assert Upper(s)[i] == UpperChar(s[i]);
    }
  }

  lemma LowerIdempotent(s: string)
    ensures Lower(Lower(s)) == Lower(s)
  {
  }

  /** What `toLowerCase().trim()` yields is already lower case. */
  lemma LowerOfTrimmedLower(s: string)
    ensures Lower(Trim(Lower(s))) == Trim(Lower(s))
  {
    var r := Trim(Lower(s));
    forall i | 0 <= i < |r| ensures LowerChar(r[i]) == r[i] {
      LowerHasLowerChars(s, r[i]);
    }
    LowerFixed(r);
  }

  /** Every character of a lower-cased string is its own lower case. */
  lemma LowerHasLowerChars(s: string, c: char)
    requires c in Lower(s)
    ensures LowerChar(c) == c
  {
    var j :| 0 <= j < |s| && Lower(s)[j] == c;
  }

  /** A string made of its own lower cases is left as it is. */
  lemma LowerFixed(s: string)
    requires forall i :: 0 <= i < |s| ==> LowerChar(s[i]) == s[i]
    ensures Lower(s) == s
  {
  }

  /** Lower-casing works character by character: on a suffix and on a concatenation. */
  lemma LowerSuffix(s: string, k: nat)
    requires k <= |s|
    ensures Lower(s)[k..] == Lower(s[k..])
  {
  }

  lemma LowerCons(c: char, t: string)
    ensures Lower([c] + t) == [LowerChar(c)] + Lower(t)
  {
    var a, b := Lower([c] + t), [LowerChar(c)] + Lower(t);
    forall i | 0 <= i < |a| ensures a[i] == b[i] {
      if i > 0 {
        assert ([c] + t)[i] == t[i - 1];
      }
    }
  }

  /** `s.startsWith(p)`. */
  predicate StartsWith(s: string, p: string) {
    |p| <= |s| && s[..|p|] == p
  }

  /** `s.includes(sub)`: `sub` occurs in `s` at some offset. */
  predicate Contains(s: string, sub: string)
    decreases |s|
  {
    StartsWith(s, sub) || (s != [] && Contains(s[1..], sub))
  }

  /** `s.substring(0, n)` and `s.slice(0, n)` for `n >= 0`. */
  function Prefix(s: string, n: nat): (r: string)
    ensures |r| == if |s| <= n then |s| else n
    ensures r == s[..|r|]
  {
    if |s| <= n then s else s[..n]
  }

  /** The first index of `c` in `s`. */
  function IndexOf(s: string, c: char): (k: nat)
    requires c in s
    ensures k < |s| && s[k] == c && c !in s[..k]
  {
    if s[0] == c then 0 else 1 + IndexOf(s[1..], c)
  }

  /** `s.split(sep)` for a one-character separator: the pieces between separators. */
  function Split(s: string, sep: char): (parts: seq<string>)
    ensures |parts| >= 1
    ensures forall i :: 0 <= i < |parts| ==> sep !in parts[i]
    decreases |s|
  {
    if sep !in s then [s]
    else
      var k := IndexOf(s, sep);
      [s[..k]] + Split(s[k + 1..], sep)
  }

  /** `parts.join(sep)`. */
  function Join(parts: seq<string>, sep: char): string {
    if |parts| == 0 then ""
    else if |parts| == 1 then parts[0]
    else parts[0] + [sep] + Join(parts[1..], sep)
  }

  /** Splitting loses nothing: joining the pieces with the separator gives the input back. */
  lemma {:induction false} JoinSplit(s: string, sep: char)
    ensures Join(Split(s, sep), sep) == s
    decreases |s|
  {
    if sep in s {
      var k := IndexOf(s, sep);
      var rest := Split(s[k + 1..], sep);
      JoinSplit(s[k + 1..], sep);
      var parts := [s[..k]] + rest;
      assert Split(s, sep) == parts;
      assert parts[0] == s[..k] && parts[1..] == rest && |parts| >= 2;
      assert Join(parts, sep) == s[..k] + [sep] + Join(rest, sep);
      assert s == s[..k] + [sep] + s[k + 1..];
    }
  }

  /** Split is the inverse of Join on pieces that contain no separator. */
  lemma {:induction false} SplitJoin(parts: seq<string>, sep: char)
    requires |parts| >= 1
    requires forall i :: 0 <= i < |parts| ==> sep !in parts[i]
    ensures Split(Join(parts, sep), sep) == parts
  {
    if |parts| > 1 {
      var rest := Join(parts[1..], sep);
      SplitJoin(parts[1..], sep);
      var s := parts[0] + [sep] + rest;
      assert s[|parts[0]|] == sep;
      assert IndexOf(s, sep) == |parts[0]| by {
        assert s[..|parts[0]|] == parts[0];
      }
      assert s[|parts[0]| + 1..] == rest;
      assert s[..|parts[0]|] == parts[0];
    }
  }

  /** The character of the decimal digit `d`. */
  function Digit(d: nat): (c: char)
    requires d < 10
    ensures IsDigit(c) && c as int - '0' as int == d
  {
    ('0' as int + d) as char
  }

  /** The decimal rendering of `n`, as `String(n)` gives it. */
  function NatToString(n: nat): (r: string)
    ensures |r| >= 1 && forall i :: 0 <= i < |r| ==> IsDigit(r[i])
  {
    if n < 10 then [Digit(n)] else NatToString(n / 10) + [Digit(n % 10)]
  }

  /** Different numbers have different renderings. */
  lemma {:induction false} NatToStringInjective(a: nat, b: nat)
    requires a != b
    ensures NatToString(a) != NatToString(b)
    decreases a + b
  {
    var x, y := NatToString(a), NatToString(b);
    if a < 10 && b < 10 {
      assert x[0] == Digit(a) && y[0] == Digit(b);
    } else if a >= 10 && b >= 10 {
      if x == y {
        assert x[|x| - 1] == Digit(a % 10) && y[|y| - 1] == Digit(b % 10);
        assert a % 10 == b % 10;
        assert NatToString(a / 10) == x[..|x| - 1] == y[..|y| - 1] == NatToString(b / 10);
        if a / 10 != b / 10 {
          NatToStringInjective(a / 10, b / 10);
        }
      }
    } else {
      assert |NatToString(a)| != |NatToString(b)| by {
        if a >= 10 {
          assert |NatToString(a / 10)| >= 1;
        } else {
          assert |NatToString(b / 10)| >= 1;
        }
      }
    }
  }
}
