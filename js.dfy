/**
 * The few JavaScript string and number primitives the reader relies on:
 * `parseInt(s, 10)`, `String(n)` for integers, `String.prototype.trim`,
 * ASCII `toLowerCase`, `endsWith`, `split('.').pop()`, `join('\n')` and
 * `Math.round`.
 */
module Js {
  import opened Wrappers

  // ---------------------------------------------------------------------
  // Characters

  predicate IsDigit(c: char) {
    '0' <= c <= '9'
  }

  function DigitValue(c: char): (v: nat)
    requires IsDigit(c)
    ensures v < 10
  {
    c as int - '0' as int
  }

  function DigitChar(d: nat): (c: char)
    requires d < 10
    ensures IsDigit(c) && DigitValue(c) == d
  {
    ('0' as int + d) as char
  }

  /** The WhiteSpace and LineTerminator code points that `trim` and `parseInt` skip. */
  predicate IsWhitespace(c: char) {
    || c == ' ' || c == '\t' || c == '\n' || c == '\r'
    || c == '\U{000B}' || c == '\U{000C}' || c == '\U{00A0}' || c == '\U{FEFF}'
    || c == '\U{1680}' || ('\U{2000}' <= c <= '\U{200A}')
    || c == '\U{2028}' || c == '\U{2029}' || c == '\U{202F}' || c == '\U{205F}'
    || c == '\U{3000}'
  }

  // ---------------------------------------------------------------------
  // trim

  /** The string without its leading whitespace. */
  function TrimStart(s: string): (r: string)
    ensures |r| <= |s| && r == s[|s| - |r|..]
    ensures forall i :: 0 <= i < |s| - |r| ==> IsWhitespace(s[i])
    ensures r == [] || !IsWhitespace(r[0])
  {
    if |s| > 0 && IsWhitespace(s[0]) then
      var t := TrimStart(s[1..]);
      assert s[1..][|s| - 1 - |t|..] == s[|s| - |t|..];
      assert forall i :: 1 <= i < |s| - |t| ==> s[i] == s[1..][i - 1];
      t
    else s
  }

  /** The string without its trailing whitespace. */
  function TrimEnd(s: string): (r: string)
    ensures |r| <= |s| && r == s[..|r|]
    ensures forall i :: |r| <= i < |s| ==> IsWhitespace(s[i])
    ensures r == [] || !IsWhitespace(r[|r| - 1])
  {
    if |s| > 0 && IsWhitespace(s[|s| - 1]) then
      var t := TrimEnd(s[..|s| - 1]);
      assert s[..|s| - 1][..|t|] == s[..|t|];
      assert forall i :: |t| <= i < |s| - 1 ==> s[i] == s[..|s| - 1][i];
      t
    else s
  }

  /** `s.trim()`: everything cut off is whitespace, and neither end of the rest is. */
  function Trim(s: string): (r: string)
    ensures |r| <= |TrimStart(s)| && r == TrimStart(s)[..|r|]
    ensures r == [] || (!IsWhitespace(r[0]) && !IsWhitespace(r[|r| - 1]))
    ensures r == [] <==> forall i :: 0 <= i < |s| ==> IsWhitespace(s[i])
  {
    var t := TrimStart(s);
    var r := TrimEnd(t);
    assert r == s[|s| - |t|..|s| - |t| + |r|];
    assert r == [] ==> t == [];
    r
  }

  /** Trimming twice trims nothing more. */
  lemma {:induction false} TrimIdempotent(s: string)
    ensures Trim(Trim(s)) == Trim(s)
  {
    var r := Trim(s);
    if r != [] {
      assert TrimStart(r) == r;
      assert TrimEnd(r) == r;
    }
  }

  // ---------------------------------------------------------------------
  // Case and suffixes

  /** ASCII lowering of one character; other characters are kept. */
  function LowerChar(c: char): char {
    if 'A' <= c <= 'Z' then (c as int + 32) as char else c
  }

  /** `s.toLowerCase()` restricted to ASCII letters. */
  function ToLower(s: string): (r: string)
    ensures |r| == |s|
    ensures forall i :: 0 <= i < |s| ==> r[i] == LowerChar(s[i])
  {
    seq(|s|, i requires 0 <= i < |s| => LowerChar(s[i]))
  }

  /** `s.endsWith(suffix)`. */
  function EndsWith(s: string, suffix: string): (b: bool)
    ensures b <==> |suffix| <= |s| && s[..|s| - |suffix|] + suffix == s
    ensures suffix == [] ==> b
  {
    |suffix| <= |s| && s[|s| - |suffix|..] == suffix
  }

  /** `s.split('.').pop()`: the text after the last dot, or all of `s` when it has none. */
  function AfterLastDot(s: string): (r: string)
    ensures |r| <= |s| && r == s[|s| - |r|..]
    ensures '.' !in r
    ensures |r| < |s| ==> s[|s| - |r| - 1] == '.'
  {
    if s == [] then []
    else if s[|s| - 1] == '.' then []
    else AfterLastDot(s[..|s| - 1]) + [s[|s| - 1]]
  }

  /** `lines.join(sep)`. */
  function Join(lines: seq<string>, sep: string): (r: string)
    ensures lines == [] ==> r == []
    ensures |lines| > 0 ==> lines[0] <= r
    ensures |lines| > 0 ==> EndsWith(r, lines[|lines| - 1])
    ensures |lines| > 1 ==> |r| >= |lines[0]| + |sep| + |lines[|lines| - 1]|
  {
    if lines == [] then []
    else if |lines| == 1 then lines[0]
    else lines[0] + sep + Join(lines[1..], sep)
  }

  // ---------------------------------------------------------------------
  // Integers and their decimal text

  /** The longest prefix of `s` made of decimal digits. */
  function DigitPrefix(s: string): (r: string)
    ensures |r| <= |s| && r == s[..|r|]
    ensures forall i :: 0 <= i < |r| ==> IsDigit(r[i])
    ensures |r| < |s| ==> !IsDigit(s[|r|])
  {
    if |s| > 0 && IsDigit(s[0]) then [s[0]] + DigitPrefix(s[1..]) else []
  }

  /** The number a non-empty run of decimal digits denotes, most significant first. */
  function DigitsValue(d: string): nat
    requires forall i :: 0 <= i < |d| ==> IsDigit(d[i])
  {
    if d == [] then 0 else DigitsValue(d[..|d| - 1]) * 10 + DigitValue(d[|d| - 1])
  }

  /** Nothing is trimmed from a string that starts with a non-space. */
  lemma TrimStartOfNonSpace(s: string)
    ensures |s| > 0 && !IsWhitespace(s[0]) ==> TrimStart(s) == s
  {
  }

  /** A run of digits is its own longest digit prefix. */
  lemma DigitPrefixOfAllDigits(s: string)
    ensures (forall i :: 0 <= i < |s| ==> IsDigit(s[i])) ==> DigitPrefix(s) == s
  {
  }

  /** `parseInt(s, 10)`: skip leading whitespace, read an optional sign and then
      the longest run of digits; None stands for NaN (no digit at all). */
  function ParseInt(s: string): (r: Option<int>)
    ensures s == [] ==> r.None?
    ensures s != [] && (forall i :: 0 <= i < |s| ==> IsDigit(s[i])) ==> r == Some(DigitsValue(s))
    ensures |s| > 0 && IsDigit(s[0]) ==> r.Some? && r.value >= 0
    ensures |s| > 0 && !IsDigit(s[0]) && !IsWhitespace(s[0]) && s[0] != '-' && s[0] != '+' ==> r.None?
  {
    TrimStartOfNonSpace(s);
    var t := TrimStart(s);
    var negative := |t| > 0 && t[0] == '-';
    var rest := if |t| > 0 && (t[0] == '-' || t[0] == '+') then t[1..] else t;
    DigitPrefixOfAllDigits(rest);
    var d := DigitPrefix(rest);
    if d == [] then None
    else
      var v: int := DigitsValue(d);
      if negative then Some(-v) else Some(v)
  }

  /** Decimal digits of a natural number, without leading zeros. */
  function NatToString(n: nat): (r: string)
    ensures |r| > 0
    ensures forall i :: 0 <= i < |r| ==> IsDigit(r[i])
  {
    if n < 10 then [DigitChar(n)] else NatToString(n / 10) + [DigitChar(n % 10)]
  }

  /** `String(n)` for an integer `n`. */
  function IntToString(n: int): (r: string)
    ensures |r| > 0
    ensures r[0] == '-' <==> n < 0
    ensures forall i :: (if n < 0 then 1 else 0) <= i < |r| ==> IsDigit(r[i])
  {
    if n < 0 then "-" + NatToString(-n) else NatToString(n)
  }

  lemma {:induction false} DigitPrefixOfDigits(s: string, tail: string)
    requires forall i :: 0 <= i < |s| ==> IsDigit(s[i])
    requires tail == [] || !IsDigit(tail[0])
    ensures DigitPrefix(s + tail) == s
  {
    if s != [] {
      assert (s + tail)[1..] == s[1..] + tail;
      DigitPrefixOfDigits(s[1..], tail);
    } else {
      assert s + tail == tail;
    }
  }

  lemma {:induction false} NatToStringValue(n: nat)
    ensures DigitsValue(NatToString(n)) == n
  {
    var r := NatToString(n);
    if n >= 10 {
      NatToStringValue(n / 10);
      assert r[..|r| - 1] == NatToString(n / 10);
    } else {
      assert r[..0] == [];
    }
  }

  /** Reading back what `String(n)` wrote gives `n`: `parseInt(String(n), 10) === n`. */
  lemma ParseIntOfIntToString(n: int)
    ensures ParseInt(IntToString(n)) == Some(n)
  {
    var s := IntToString(n);
    var digits := NatToString(if n < 0 then -n else n);
    assert !IsWhitespace(s[0]);
    assert TrimStart(s) == s;
    NatToStringValue(if n < 0 then -n else n);
    if n < 0 {
      assert s[1..] == digits;
      DigitPrefixOfDigits(digits, []);
      assert digits + [] == digits;
    } else {
      assert s[0] != '-' && s[0] != '+';
      DigitPrefixOfDigits(digits, []);
      assert digits + [] == digits;
    }
  }

  /** Different integers have different decimal texts. */
  lemma IntToStringInjective(m: int, n: int)
    ensures IntToString(m) == IntToString(n) <==> m == n
  {
    if IntToString(m) == IntToString(n) {
      ParseIntOfIntToString(m);
      ParseIntOfIntToString(n);
    }
  }

  // ---------------------------------------------------------------------
  // Exceptions

  /** How an awaited step ended: normally, throwing an `Error`, or throwing something else. */
  datatype Outcome = Ok | ThrewError(message: string) | ThrewOther

  /** `e instanceof Error ? e.message : fallback` for a step that threw; nothing for one that did not. */
  function ErrorMessage(o: Outcome, fallback: string): (m: Option<string>)
    ensures o.Ok? <==> m.None?
    ensures o.ThrewError? ==> m == Some(o.message)
    ensures o.ThrewOther? ==> m == Some(fallback)
  {
    match o
    case Ok => None
    case ThrewError(message) => Some(message)
    case ThrewOther => Some(fallback)
  }

  // ---------------------------------------------------------------------
  // Objects

  /** The property names every plain object inherits from `Object.prototype`. */
  const ObjectPrototypeKeys: set<string> := {
    "constructor", "hasOwnProperty", "isPrototypeOf", "propertyIsEnumerable", "toLocaleString",
    "toString", "valueOf", "__proto__", "__defineGetter__", "__defineSetter__",
    "__lookupGetter__", "__lookupSetter__"
  }

  // ---------------------------------------------------------------------
  // Math.round

  /** `Math.round(x)`: the integer nearest to `x`, halves rounded up. */
  function Round(x: real): (r: int)
    ensures r as real - 0.5 <= x < r as real + 0.5
  {
    (x + 0.5).Floor
  }

  /** `Math.round(x * 100)` for a fraction of the whole lies in 0..100. */
  lemma RoundPercentBounds(x: real)
    requires 0.0 <= x <= 1.0
    ensures 0 <= Round(x * 100.0) <= 100
  {
  }
}
