/**
 * The slice of JavaScript semantics the diary pages rely on: loosely typed
 * JSON values as the generated client hands them over, truthiness,
 * `String(x)`, strict equality as `indexOf` uses it, and `String.prototype.trim`.
 */
module Js {

  /**
   * A value as `JSON.parse` produces it. Numbers are integers here (floats
   * and NaN are not modelled). An object is its own-property list in
   * iteration order; a parsed object has no repeated key.
   */
  datatype JsValue =
    | Undefined
    | Null
    | Bool(b: bool)
    | Num(n: int)
    | Str(s: string)
    | Arr(items: seq<JsValue>)
    | Obj(fields: seq<(string, JsValue)>)

  /** JavaScript truthiness: `undefined`, `null`, `false`, `0` and `""` are falsy. */
  predicate Truthy(v: JsValue)
  {
    match v
    case Undefined => false
    case Null => false
    case Bool(b) => b
    case Num(n) => n != 0
    case Str(s) => s != ""
    case Arr(_) => true
    case Obj(_) => true
  }

  /** Values that `===` compares by value; arrays and objects compare by identity. */
  predicate IsPrimitive(v: JsValue)
  {
    !v.Arr? && !v.Obj?
  }

  /** `Object.values(o)`: the property values in iteration order. */
  function Values(fields: seq<(string, JsValue)>): (r: seq<JsValue>)
    ensures |r| == |fields|
    ensures forall i :: 0 <= i < |fields| ==> r[i] == fields[i].1
  {
    seq(|fields|, i requires 0 <= i < |fields| => fields[i].1)
  }

  /** Property read `o[key]` on an object's field list; a missing key reads as `undefined`. */
  function Get(fields: seq<(string, JsValue)>, key: string): (r: JsValue)
    ensures (forall i :: 0 <= i < |fields| ==> fields[i].0 != key) ==> r == Undefined
    ensures r != Undefined ==> exists i :: 0 <= i < |fields| && fields[i] == (key, r)
    ensures (exists i :: 0 <= i < |fields| && fields[i].0 == key) ==>
              exists i :: 0 <= i < |fields| && fields[i] == (key, r) && forall j :: 0 <= j < i ==> fields[j].0 != key
  {
    if |fields| == 0 then Undefined
    else if fields[0].0 == key then fields[0].1
    else Get(fields[1..], key)
  }

  /** The decimal digit for 0..9. */
  function DigitChar(d: int): char
    requires 0 <= d < 10
  {
    "0123456789"[d]
  }

  /** Decimal digits of a natural number, most significant first, no leading zeros. */
  function NatToString(n: nat): (r: string)
    ensures |r| >= 1
    ensures forall i :: 0 <= i < |r| ==> '0' <= r[i] <= '9'
  {
    if n < 10 then [DigitChar(n)] else NatToString(n / 10) + [DigitChar(n % 10)]
  }

  /** The number a non-empty string of decimal digits denotes. */
  function ParseNat(s: string): nat
    requires forall i :: 0 <= i < |s| ==> '0' <= s[i] <= '9'
  {
    if |s| == 0 then 0 else 10 * ParseNat(s[..|s| - 1]) + (s[|s| - 1] as int - '0' as int)
  }

  /** Printing a natural number in decimal and reading it back gives the number. */
  lemma {:induction false} NatToStringRoundTrip(n: nat)
    ensures ParseNat(NatToString(n)) == n
  {
    if n >= 10 {
      var r := NatToString(n);
      assert r[..|r| - 1] == NatToString(n / 10);
      NatToStringRoundTrip(n / 10);
    }
  }

  /** `String(n)` for an integer number: a minus sign exactly for negatives, then digits. */
  function IntToString(n: int): (r: string)
    ensures |r| >= 1
    ensures r[0] == '-' <==> n < 0
    ensures forall i :: (if n < 0 then 1 else 0) <= i < |r| ==> '0' <= r[i] <= '9'
  {
    if n < 0 then "-" + NatToString(-n) else NatToString(n)
  }

  /** Distinct natural numbers have distinct decimal forms. */
  lemma NatToStringInjective(a: nat, b: nat)
    requires NatToString(a) == NatToString(b)
    ensures a == b
  {
    NatToStringRoundTrip(a);
    NatToStringRoundTrip(b);
  }

  /** Distinct integers print differently, so `"interest_" + id` keys of distinct ids differ. */
  lemma IntToStringInjective(m: int, n: int)
    requires IntToString(m) == IntToString(n)
    ensures m == n
  {
    if m < 0 {
      assert n < 0;
      var r := IntToString(m);
      assert r[1..] == NatToString(-m);
      assert r[1..] == NatToString(-n);
      NatToStringInjective(-m, -n);
    } else {
      assert n >= 0;
      NatToStringInjective(m, n);
    }
  }

  /** `parts.join(",")`. */
  function JoinComma(parts: seq<string>): string
  {
    if |parts| == 0 then ""
    else if |parts| == 1 then parts[0]
    else JoinComma(parts[..|parts| - 1]) + "," + parts[|parts| - 1]
  }

  /**
   * `String(v)`, which is also how a value becomes a property key. An array
   * joins its elements with commas, `null` and `undefined` elements giving
   * the empty string; every plain object prints as `[object Object]`.
   */
  function ToJsString(v: JsValue): (r: string)
    ensures v.Str? ==> r == v.s
    ensures v.Num? ==> r == IntToString(v.n)
    ensures v.Undefined? ==> r == "undefined"
    ensures v.Null? ==> r == "null"
    ensures v.Bool? ==> r == (if v.b then "true" else "false")
    ensures v.Obj? ==> r == "[object Object]"
  {
    match v
    case Undefined => "undefined"
    case Null => "null"
    case Bool(b) => if b then "true" else "false"
    case Num(n) => IntToString(n)
    case Str(s) => s
    case Obj(_) => "[object Object]"
    case Arr(items) =>
      JoinComma(seq(|items|, i requires 0 <= i < |items| =>
        if items[i].Undefined? || items[i].Null? then "" else ToJsString(items[i])))
  }

  /**
   * The characters `trim()` removes: ECMAScript's WhiteSpace (tab, vertical
   * tab, form feed, space, no-break space, the byte-order mark and the Zs
   * space separators) and LineTerminator (LF, CR, U+2028, U+2029).
   */
  predicate IsJsWhitespace(c: char)
  {
    || c == '\t' || c == '\n' || c == '\U{000B}' || c == '\U{000C}' || c == '\r'
    || c == ' ' || c == '\U{00A0}' || c == '\U{1680}'
    || ('\U{2000}' <= c <= '\U{200A}')
    || c == '\U{2028}' || c == '\U{2029}' || c == '\U{202F}' || c == '\U{205F}'
    || c == '\U{3000}' || c == '\U{FEFF}'
  }

  predicate AllWhitespace(s: string)
  {
    forall i :: 0 <= i < |s| ==> IsJsWhitespace(s[i])
  }

  /** Index of the first character `trim()` keeps at the front of `s`. */
  function TrimStartIndex(s: string): (k: nat)
    ensures k <= |s|
    ensures AllWhitespace(s[..k])
    ensures k == |s| || !IsJsWhitespace(s[k])
  {
    if |s| == 0 || !IsJsWhitespace(s[0]) then 0
    else
      var k' := TrimStartIndex(s[1..]);
      assert s[1..][..k'] == s[1..k' + 1];
      1 + k'
  }

  /** Index just past the last character `trim()` keeps at the end of `s`. */
  function TrimEndIndex(s: string): (k: nat)
    ensures k <= |s|
    ensures AllWhitespace(s[k..])
    ensures k == 0 || !IsJsWhitespace(s[k - 1])
  {
    if |s| == 0 || !IsJsWhitespace(s[|s| - 1]) then |s|
    else
      var k' := TrimEndIndex(s[..|s| - 1]);
      assert s[..|s| - 1][k'..] == s[k'..|s| - 1];
      k'
  }

  /** `s.trim()`: `s` without its leading and trailing whitespace. */
  function Trim(s: string): (r: string)
  {
    var t := s[TrimStartIndex(s)..];
    t[..TrimEndIndex(t)]
  }

  /** `s.trim() !== ""`, which is also the truthiness of `s.trim()`. */
  predicate NonBlank(s: string)
  {
    Trim(s) != ""
  }

  /**
   * `trim()` removes exactly a whitespace prefix and a whitespace suffix,
   * and what it keeps starts and ends with a non-whitespace character.
   */
  lemma TrimIsCore(s: string)
    ensures exists a, b ::
              && 0 <= a <= b <= |s| && Trim(s) == s[a..b]
              && AllWhitespace(s[..a]) && AllWhitespace(s[b..])
    ensures Trim(s) != "" ==> !IsJsWhitespace(Trim(s)[0]) && !IsJsWhitespace(Trim(s)[|Trim(s)| - 1])
  {
    var a := TrimStartIndex(s);
    var t := s[a..];
    var e := TrimEndIndex(t);
    assert Trim(s) == s[a..a + e];
    assert t[e..] == s[a + e..];
    if a == |s| {
      assert s[..a] == s;
    }
  }

  /** A string is non-blank exactly when it holds a character `trim()` does not remove. */
  lemma NonBlankIff(s: string)
    ensures NonBlank(s) <==> exists i :: 0 <= i < |s| && !IsJsWhitespace(s[i])
  {
    var a := TrimStartIndex(s);
    var t := s[a..];
    var e := TrimEndIndex(t);
    if a < |s| {
      assert t[0] == s[a];
      assert e > 0;
      assert Trim(s)[0] == s[a];
    } else {
      assert s[..a] == s;
    }
  }
}
