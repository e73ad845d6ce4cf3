/** String operations of the JavaScript runtime that the modelled code relies on:
    `trim`, ASCII `toLowerCase`, UTF-16 `length` and the code-unit order used by
    `<` and the default `sort()`, `join`, and the decimal rendering of a number
    in a template. */
module Strings {

  /** The code points `String.prototype.trim` removes: ECMAScript WhiteSpace
      (TAB, VT, FF, ZWNBSP and the Space_Separator category) and LineTerminator. */
  predicate IsJsWhitespace(c: char) {
    var n := c as int;
    || n == 0x09 || n == 0x0A || n == 0x0B || n == 0x0C || n == 0x0D
    || n == 0x20 || n == 0xA0 || n == 0x1680
    || (0x2000 <= n <= 0x200A)
    || n == 0x2028 || n == 0x2029 || n == 0x202F || n == 0x205F
    || n == 0x3000 || n == 0xFEFF
  }

  /** Number of whitespace characters at the start of `s`. */
  function LeadingWhitespace(s: string): (r: nat)
    ensures r <= |s|
    ensures forall k | 0 <= k < r :: IsJsWhitespace(s[k])
    ensures r < |s| ==> !IsJsWhitespace(s[r])
  {
    if |s| > 0 && IsJsWhitespace(s[0]) then
      var t := LeadingWhitespace(s[1..]);
      assert forall k | 1 <= k < 1 + t :: s[k] == s[1..][k - 1];
      1 + t
    else 0
  }

  /** Length of `s` once trailing whitespace is cut off. */
  function TrimmedEnd(s: string): (r: nat)
    ensures r <= |s|
    ensures forall k | r <= k < |s| :: IsJsWhitespace(s[k])
    ensures r > 0 ==> !IsJsWhitespace(s[r - 1])
  {
    if |s| > 0 && IsJsWhitespace(s[|s| - 1]) then
      var t := TrimmedEnd(s[..|s| - 1]);
      assert forall k | t <= k < |s| - 1 :: s[k] == s[..|s| - 1][k];
      t
    else |s|
  }

  /** `String.prototype.trim`. */
  function Trim(s: string): (r: string)
    ensures |r| > 0 ==> !IsJsWhitespace(r[0]) && !IsJsWhitespace(r[|r| - 1])
    ensures exists a, b ::
              && 0 <= a <= b <= |s| && r == s[a..b]
              && (forall k | 0 <= k < a :: IsJsWhitespace(s[k]))
              && (forall k | b <= k < |s| :: IsJsWhitespace(s[k]))
  {
    var a := LeadingWhitespace(s);
    var t := s[a..];
    var e := TrimmedEnd(t);
    assert t[..e] == s[a..a + e];
    assert forall k | a + e <= k < |s| :: s[k] == t[k - a];
    t[..e]
  }

  /** A string without white space at either end is its own trim. */
  lemma TrimTrimmed(s: string)
    requires |s| > 0 ==> !IsJsWhitespace(s[0]) && !IsJsWhitespace(s[|s| - 1])
    ensures Trim(s) == s
  {
    assert LeadingWhitespace(s) == 0;
    assert s[0..] == s;
    assert TrimmedEnd(s) == |s|;
  }

  /** Trimming twice is trimming once. */
  lemma TrimIdempotent(s: string)
    ensures Trim(Trim(s)) == Trim(s)
  {
    TrimTrimmed(Trim(s));
  }

  /** `toLowerCase` restricted to ASCII letters. */
  function LowerChar(c: char): (r: char)
    ensures 'A' <= c <= 'Z' ==> r as int == c as int + 32
    ensures !('A' <= c <= 'Z') ==> r == c
  {
    if 'A' <= c <= 'Z' then (c as int + 32) as char else c
  }

  function Lower(s: string): (r: string)
    ensures |r| == |s|
    ensures forall k | 0 <= k < |s| :: r[k] == LowerChar(s[k])
  {
    seq(|s|, k requires 0 <= k < |s| => LowerChar(s[k]))
  }

  // UTF-16. A Dafny `char` is a Unicode scalar value; a JavaScript string is
  // a sequence of UTF-16 code units, and `length`, `<` and the default `sort()`
  // all work on those units.

  /** The code units of one character: the character itself below U+10000,
      a high and a low surrogate above. */
  function CodeUnits(c: char): (r: seq<int>)
    ensures 1 <= |r| <= 2
    ensures |r| == 1 <==> c as int < 0x10000
    ensures forall k | 0 <= k < |r| :: 0 <= r[k] < 0x10000
  {
    var n := c as int;
    if n < 0x10000 then [n] else [0xD800 + (n - 0x10000) / 0x400, 0xDC00 + (n - 0x10000) % 0x400]
  }

  /** The UTF-16 encoding of `s`. */
  function Utf16(s: string): (r: seq<int>)
    ensures |s| <= |r| <= 2 * |s|
    decreases |s|
  {
    if |s| == 0 then [] else CodeUnits(s[0]) + Utf16(s[1..])
  }

  /** `s.length` in JavaScript: the number of code units. */
  function Utf16Length(s: string): (n: nat)
    ensures |s| <= n <= 2 * |s|
  {
    |Utf16(s)|
  }

  /** Characters below U+10000 take one code unit each. */
  lemma {:induction false} Utf16LengthBmp(s: string)
    requires forall k | 0 <= k < |s| :: s[k] as int < 0x10000
    ensures Utf16Length(s) == |s|
    decreases |s|
  {
    if |s| > 0 {
      Utf16LengthBmp(s[1..]);
    }
  }

  /** Characters from U+10000 on take two code units each. */
  lemma {:induction false} Utf16LengthAstral(s: string)
    requires forall k | 0 <= k < |s| :: s[k] as int >= 0x10000
    ensures Utf16Length(s) == 2 * |s|
    decreases |s|
  {
    if |s| > 0 {
      Utf16LengthAstral(s[1..]);
    }
  }

  /** The first code unit tells whether a surrogate pair follows, and the
      units of a character determine it. */
  lemma CodeUnitsDetermine(c: char, d: char, rest1: seq<int>, rest2: seq<int>)
    requires CodeUnits(c) + rest1 == CodeUnits(d) + rest2
    ensures c == d && rest1 == rest2
  {
    var u, v := CodeUnits(c) + rest1, CodeUnits(d) + rest2;
    assert u[0] == v[0];
    var n, m := c as int, d as int;
    assert n < 0xD800 || 0xE000 <= n < 0x110000;
    assert m < 0xD800 || 0xE000 <= m < 0x110000;
    if n < 0x10000 {
      assert m < 0x10000;
      assert n == m;
      assert rest1 == u[1..] && rest2 == v[1..];
    } else {
      assert m >= 0x10000;
      assert u[1] == v[1];
      assert (n - 0x10000) / 0x400 == (m - 0x10000) / 0x400;
      assert (n - 0x10000) % 0x400 == (m - 0x10000) % 0x400;
      assert n == m;
      assert rest1 == u[2..] && rest2 == v[2..];
    }
  }

  /** Different strings have different encodings. */
  lemma {:induction false} Utf16Injective(a: string, b: string)
    requires Utf16(a) == Utf16(b)
    ensures a == b
    decreases |a|
  {
    if |a| == 0 || |b| == 0 {
      assert |Utf16(a)| == 0 || |Utf16(b)| == 0;
    } else {
      CodeUnitsDetermine(a[0], b[0], Utf16(a[1..]), Utf16(b[1..]));
      Utf16Injective(a[1..], b[1..]);
      assert a == [a[0]] + a[1..] && b == [b[0]] + b[1..];
    }
  }

  /** Strict lexicographic order on sequences of code units; a proper prefix
      comes first. */
  predicate UnitsLt(u: seq<int>, v: seq<int>)
    decreases |u|
  {
    if |u| == 0 then |v| > 0
    else if |v| == 0 then false
    else if u[0] != v[0] then u[0] < v[0]
    else UnitsLt(u[1..], v[1..])
  }

  /** `a < b` on JavaScript strings, the order the default `sort()` and the
      comparison operators apply: code unit by code unit. */
  predicate StrLt(a: string, b: string) {
    UnitsLt(Utf16(a), Utf16(b))
  }

  predicate StrLe(a: string, b: string) {
    a == b || StrLt(a, b)
  }

  lemma {:induction false} UnitsLtAsymmetric(u: seq<int>, v: seq<int>)
    ensures !(UnitsLt(u, v) && UnitsLt(v, u))
    decreases |u|
  {
    if |u| > 0 && |v| > 0 && u[0] == v[0] { UnitsLtAsymmetric(u[1..], v[1..]); }
  }

  lemma {:induction false} UnitsLtTransitive(u: seq<int>, v: seq<int>, w: seq<int>)
    requires UnitsLt(u, v) && UnitsLt(v, w)
    ensures UnitsLt(u, w)
    decreases |u|
  {
    if |u| > 0 && u[0] == v[0] && v[0] == w[0] {
      UnitsLtTransitive(u[1..], v[1..], w[1..]);
    }
  }

  lemma {:induction false} UnitsLtTotal(u: seq<int>, v: seq<int>)
    ensures u == v || UnitsLt(u, v) || UnitsLt(v, u)
    decreases |u|
  {
    if |u| > 0 && |v| > 0 && u[0] == v[0] {
      UnitsLtTotal(u[1..], v[1..]);
      if u[1..] == v[1..] {
        assert u == [u[0]] + u[1..] && v == [v[0]] + v[1..];
      }
    }
  }

  lemma StrLtAsymmetric(a: string, b: string)
    ensures !(StrLt(a, b) && StrLt(b, a))
  {
    UnitsLtAsymmetric(Utf16(a), Utf16(b));
  }

  lemma StrLtIrreflexive(a: string)
    ensures !StrLt(a, a)
  {
    StrLtAsymmetric(a, a);
  }

  lemma StrLtTransitive(a: string, b: string, c: string)
    requires StrLt(a, b) && StrLt(b, c)
    ensures StrLt(a, c)
  {
    UnitsLtTransitive(Utf16(a), Utf16(b), Utf16(c));
  }

  /** Two different strings are ordered one way or the other. */
  lemma StrLtTotal(a: string, b: string)
    ensures a == b || StrLt(a, b) || StrLt(b, a)
  {
    UnitsLtTotal(Utf16(a), Utf16(b));
    if Utf16(a) == Utf16(b) {
      Utf16Injective(a, b);
    }
  }

  /** Code-unit order is not code-point order: U+FF61 comes after U+10000,
      whose high surrogate 0xD800 is smaller. */
  lemma SurrogateOrder()
    ensures StrLt([0x10000 as char], [0xFF61 as char])
    ensures (0xFF61 as char) < (0x10000 as char)
  {
    assert Utf16([0x10000 as char]) == [0xD800, 0xDC00];
    assert Utf16([0xFF61 as char]) == [0xFF61];
  }

  /** `StrLe` is a total order. */
  lemma StrLeTotalOrder()
    ensures forall a, b :: StrLe(a, b) || StrLe(b, a)
    ensures forall a, b :: StrLe(a, b) && StrLe(b, a) ==> a == b
    ensures forall a, b, c :: StrLe(a, b) && StrLe(b, c) ==> StrLe(a, c)
  {
    forall a, b ensures StrLe(a, b) || StrLe(b, a) { StrLtTotal(a, b); }
    forall a, b | StrLe(a, b) && StrLe(b, a) ensures a == b { StrLtAsymmetric(a, b); }
    forall a, b, c | StrLe(a, b) && StrLe(b, c) ensures StrLe(a, c) {
      if StrLt(a, b) && StrLt(b, c) { StrLtTransitive(a, b, c); }
    }
  }

  /** `Array.prototype.join(sep)`. */
  function Join(sep: string, parts: seq<string>): string
    decreases |parts|
  {
    if |parts| == 0 then ""
    else if |parts| == 1 then parts[0]
    else parts[0] + sep + Join(sep, parts[1..])
  }

  function DigitChar(d: nat): (c: char)
    requires d < 10
    ensures '0' <= c <= '9'
  {
    ('0' as int + d) as char
  }

  /** Decimal rendering of a natural number, as a template literal writes it. */
  function NatToDecimal(n: nat): (r: string)
    ensures |r| >= 1
    ensures forall k | 0 <= k < |r| :: '0' <= r[k] <= '9'
    ensures n >= 10 <==> |r| >= 2
    decreases n
  {
    if n < 10 then [DigitChar(n)] else NatToDecimal(n / 10) + [DigitChar(n % 10)]
  }

  /** Different numbers render differently. */
  lemma {:induction false} NatToDecimalInjective(a: nat, b: nat)
    requires NatToDecimal(a) == NatToDecimal(b)
    ensures a == b
    decreases a
  {
    if a >= 10 {
      var ra, rb := NatToDecimal(a), NatToDecimal(b);
      assert ra[|ra| - 1] == DigitChar(a % 10) && rb[|rb| - 1] == DigitChar(b % 10);
      assert ra[..|ra| - 1] == NatToDecimal(a / 10);
      assert rb[..|rb| - 1] == NatToDecimal(b / 10);
      NatToDecimalInjective(a / 10, b / 10);
    } else {
      assert NatToDecimal(a)[0] == DigitChar(a);
    }
  }
}
