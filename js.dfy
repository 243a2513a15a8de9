/**
 * The parts of the JavaScript language and its built-ins that the service's decision logic
 * relies on: values as `JSON.parse` produces them, truthiness, `String.prototype.trim`,
 * `includes`, `indexOf`, `substring`, the `\w` and `\s` character classes of regular
 * expressions, and the `%` operator.
 */
module Js {
  import opened Wrappers

  /** A JavaScript value as `JSON.parse` can produce it; `Undefined` stands for a missing property. */
  datatype JsValue =
    | Undefined
    | Null
    | Bool(b: bool)
    | Num(n: real)
    | Str(s: string)
    | Arr(elems: seq<JsValue>)
    | Obj(fields: map<string, JsValue>)

  type JsObject = map<string, JsValue>

  /** `undefined` or `null`: reading a property of either throws a `TypeError`. */
  predicate IsNullish(v: JsValue) {
    v.Undefined? || v.Null?
  }

  /** JavaScript truthiness (`NaN` cannot come out of `JSON.parse`, so a number is falsy only at zero). */
  predicate Truthy(v: JsValue) {
    match v
    case Undefined => false
    case Null => false
    case Bool(b) => b
    case Num(n) => n != 0.0
    case Str(s) => s != ""
    case Arr(_) => true
    case Obj(_) => true
  }

  /** An own property of an object, `undefined` when it is absent. */
  function Field(obj: JsObject, key: string): JsValue {
    if key in obj then obj[key] else Undefined
  }

  /**
   * Reading property `key` of a non-nullish value. Only objects have the properties the
   * service reads; none of its keys names a built-in property of strings, numbers,
   * booleans or arrays, so on those the read gives `undefined`.
   */
  function Get(v: JsValue, key: string): (r: JsValue)
    requires !IsNullish(v)
    ensures !v.Obj? ==> r == Undefined
  {
    if v.Obj? then Field(v.fields, key) else Undefined
  }

  // ---------------------------------------------------------------------------
  // Characters

  /** The `\s` class, which is also what `trim` removes: WhiteSpace and LineTerminator. */
  predicate IsWhitespace(c: char) {
    c == '\t' || c == '\n' || c == '\U{000B}' || c == '\U{000C}' || c == '\r' || c == ' '
    || c == '\U{00A0}' || c == '\U{1680}' || ('\U{2000}' <= c <= '\U{200A}')
    || c == '\U{2028}' || c == '\U{2029}' || c == '\U{202F}' || c == '\U{205F}'
    || c == '\U{3000}' || c == '\U{FEFF}'
  }

  /** The `\w` class of a regular expression without the `u` and `i` flags. */
  predicate IsWordChar(c: char) {
    ('a' <= c <= 'z') || ('A' <= c <= 'Z') || ('0' <= c <= '9') || c == '_'
  }

  predicate AllWhitespace(s: string) {
    forall i :: 0 <= i < |s| ==> IsWhitespace(s[i])
  }

  /** The end of the run of whitespace that starts at `lo`, stopping at `hi`. */
  function WhitespaceEnd(s: string, lo: nat, hi: nat): (e: nat)
    requires lo <= hi <= |s|
    ensures lo <= e <= hi
    ensures forall i :: lo <= i < e ==> IsWhitespace(s[i])
    ensures e < hi ==> !IsWhitespace(s[e])
    decreases hi - lo
  {
    if lo < hi && IsWhitespace(s[lo]) then WhitespaceEnd(s, lo + 1, hi) else lo
  }

  /** The start of the run of whitespace that ends at `hi`, going back no further than `lo`. */
  function WhitespaceStart(s: string, lo: nat, hi: nat): (b: nat)
    requires lo <= hi <= |s|
    ensures lo <= b <= hi
    ensures forall i :: b <= i < hi ==> IsWhitespace(s[i])
    ensures lo < b ==> !IsWhitespace(s[b - 1])
    decreases hi - lo
  {
    if lo < hi && IsWhitespace(s[hi - 1]) then WhitespaceStart(s, lo, hi - 1) else hi
  }

  /** The end of the run of `\w` characters that starts at `lo`, stopping at `hi`. */
  function WordCharsEnd(s: string, lo: nat, hi: nat): (e: nat)
    requires lo <= hi <= |s|
    ensures lo <= e <= hi
    ensures forall i :: lo <= i < e ==> IsWordChar(s[i])
    ensures e < hi ==> !IsWordChar(s[e])
    decreases hi - lo
  {
    if lo < hi && IsWordChar(s[lo]) then WordCharsEnd(s, lo + 1, hi) else lo
  }

  /** True when `s` neither starts nor ends with whitespace. */
  predicate IsTrimmed(s: string) {
    s == [] || (!IsWhitespace(s[0]) && !IsWhitespace(s[|s| - 1]))
  }

  /**
   * `String.prototype.trim`: the result is `s` with its whitespace removed at both ends and
   * nowhere else.
   */
  function Trim(s: string): (r: string)
    ensures IsTrimmed(r)
    ensures exists a :: 0 <= a <= |s| - |r| && s[a..a + |r|] == r
                        && AllWhitespace(s[..a]) && AllWhitespace(s[a + |r|..])
    ensures r == "" <==> AllWhitespace(s)
  {
    var a := WhitespaceEnd(s, 0, |s|);
    var e := WhitespaceStart(s, a, |s|);
    TrimBounds(s, a, e);
    s[a..e]
  }

  /** What the two runs of whitespace around `s[a..e]` make of it. */
  lemma TrimBounds(s: string, a: nat, e: nat)
    requires a == WhitespaceEnd(s, 0, |s|) && e == WhitespaceStart(s, a, |s|)
    ensures IsTrimmed(s[a..e])
    ensures AllWhitespace(s[..a]) && AllWhitespace(s[e..])
    ensures s[a..e] == "" <==> AllWhitespace(s)
  {
    if a < e {
      assert s[a..e][0] == s[a] && s[a..e][e - a - 1] == s[e - 1];
    }
    assert forall i :: 0 <= i < a ==> s[..a][i] == s[i];
    assert forall i :: e <= i < |s| ==> s[e..][i - e] == s[i];
  }

  /** Trimming text that already has no whitespace at its ends changes nothing. */
  lemma TrimmedIsFixed(s: string)
    requires IsTrimmed(s)
    ensures Trim(s) == s
  {
    assert s != [] ==> WhitespaceEnd(s, 0, |s|) == 0 && WhitespaceStart(s, 0, |s|) == |s|;
  }

  // ---------------------------------------------------------------------------
  // Strings

  /** `s.includes(part)`: `part` occurs somewhere in `s`. */
  predicate Includes(s: string, part: string)
    decreases |s|
  {
    part <= s || (|s| > 0 && Includes(s[1..], part))
  }

  /** `part` occurring at some offset of `s` makes `Includes` hold. */
  lemma {:induction false} IncludesAt(s: string, part: string, i: nat)
    requires i + |part| <= |s| && s[i..i + |part|] == part
    ensures Includes(s, part)
    decreases i
  {
    if i == 0 {
      assert s[..|part|] == part;
    } else {
      assert s[1..][i - 1..i - 1 + |part|] == s[i..i + |part|];
      IncludesAt(s[1..], part, i - 1);
    }
  }

  /** `part` occurs in `s` starting at offset `i`. */
  predicate OccursAt(s: string, part: string, i: nat) {
    i + |part| <= |s| && s[i..i + |part|] == part
  }

  /** `Includes` holds exactly when `part` occurs at some offset of `s`. */
  lemma {:induction false} IncludesIffOccurs(s: string, part: string)
    ensures Includes(s, part) <==> exists i: nat :: OccursAt(s, part, i)
    decreases |s|
  {
    if Includes(s, part) {
      if part <= s {
        assert OccursAt(s, part, 0);
      } else {
        IncludesIffOccurs(s[1..], part);
        var i: nat :| OccursAt(s[1..], part, i);
        assert s[i + 1..i + 1 + |part|] == s[1..][i..i + |part|];
        assert OccursAt(s, part, i + 1);
      }
    }
    if exists i: nat :: OccursAt(s, part, i) {
      var i: nat :| OccursAt(s, part, i);
      IncludesAt(s, part, i);
    }
  }

  /** A text that lacks one of the characters of `part` does not include `part`. */
  lemma {:induction false} NotIncludedWithoutChar(s: string, part: string, c: char)
    requires c in part && c !in s
    ensures !Includes(s, part)
    decreases |s|
  {
    var k :| 0 <= k < |part| && part[k] == c;
    if |part| <= |s| {
      assert s[k] in s;
      assert s[..|part|][k] != part[k];
    }
    if |s| > 0 {
      assert forall j :: 0 <= j < |s| - 1 ==> s[1..][j] == s[j + 1];
      NotIncludedWithoutChar(s[1..], part, c);
    }
  }

  /** A text that includes `whole` includes every prefix of it too. */
  lemma {:induction false} IncludesPartOf(s: string, part: string, whole: string)
    requires part <= whole && Includes(s, whole)
    ensures Includes(s, part)
    decreases |s|
  {
    if whole <= s {
      assert s[..|part|] == whole[..|part|] == part;
    } else {
      IncludesPartOf(s[1..], part, whole);
    }
  }

  /** `s.indexOf(c)`: the first position of `c` in `s`, or -1. */
  function IndexOf(s: string, c: char): (i: int)
    ensures -1 <= i < |s|
    ensures i == -1 <==> c !in s
    ensures i >= 0 ==> s[i] == c && c !in s[..i]
  {
    if |s| == 0 then -1
    else if s[0] == c then 0
    else
      var j := IndexOf(s[1..], c);
      assert forall k :: 0 <= k < |s| - 1 ==> s[1..][k] == s[k + 1];
      if j == -1 then -1
      else
        assert s[..j + 1] == [s[0]] + s[1..][..j];
        j + 1
  }

  /** A position holding `c` with no `c` before it is what `indexOf` finds. */
  lemma IndexOfIsFirst(s: string, c: char, i: nat)
    requires i < |s| && s[i] == c && c !in s[..i]
    ensures IndexOf(s, c) == i
  {
    assert s[i] in s;
    var j := IndexOf(s, c);
    assert forall k :: 0 <= k < i ==> s[k] != c by {
      forall k | 0 <= k < i ensures s[k] != c { assert s[..i][k] == s[k]; }
    }
    assert forall k :: 0 <= k < j ==> s[k] != c by {
      forall k | 0 <= k < j ensures s[k] != c { assert s[..j][k] == s[k]; }
    }
  }

  /** The index `substring` uses for an argument: clamped into `0..|s|`. */
  function ClampIndex(i: int, len: nat): (r: nat)
    ensures r <= len
    ensures 0 <= i <= len ==> r == i
    ensures i < 0 ==> r == 0
    ensures i > len ==> r == len
  {
    if i < 0 then 0 else if i > len then len else i
  }

  /**
   * `s.substring(start, end)`: both indices are clamped into `0..|s|`, and when the first
   * exceeds the second the two are swapped.
   */
  function Substring(s: string, start: int, end: int): (r: string)
    ensures 0 <= start <= end <= |s| ==> r == s[start..end]
    ensures 0 <= end < start <= |s| ==> r == s[end..start]
    ensures start <= 0 && 0 <= end <= |s| ==> r == s[..end]
    ensures end <= 0 && 0 <= start <= |s| ==> r == s[..start]
    ensures 0 <= start <= |s| <= end ==> r == s[start..]
    ensures 0 <= end <= |s| <= start ==> r == s[end..]
    ensures start <= 0 && |s| <= end ==> r == s
    ensures end <= 0 && |s| <= start ==> r == s
    ensures (start <= 0 && end <= 0) || (|s| <= start && |s| <= end) ==> r == ""
    ensures |r| <= |s|
  {
    var a := ClampIndex(start, |s|);
    var b := ClampIndex(end, |s|);
    if a <= b then s[a..b] else s[b..a]
  }

  // ---------------------------------------------------------------------------
  // Numbers

  /** The absolute value of an integer. */
  function Magnitude(x: int): nat {
    if x < 0 then -x else x
  }

  /**
   * The `%` operator on integers: the remainder takes the sign of the dividend and is
   * smaller in magnitude than the divisor (Dafny's own `%` is Euclidean instead).
   */
  function JsRemainder(a: int, n: int): (r: int)
    requires n > 0
    ensures -n < r < n
    ensures a >= 0 ==> r >= 0
    ensures a <= 0 ==> r <= 0
    ensures Magnitude(r) == Magnitude(a) % n
  {
    if a >= 0 then a % n else -((-a) % n)
  }
}
