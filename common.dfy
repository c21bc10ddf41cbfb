/** Values and text helpers shared by the modules of the contest platform model:
    optional values, results, the JavaScript string operations the code relies on
    (case mapping, trimming, `includes`, decimal rendering) and the meaning of
    `Math.floor` / `Math.round` applied to a quotient. */
module Common {

  datatype Option<+T> = None | Some(value: T)

  datatype Result<+T, +E> = Ok(value: T) | Err(error: E)

  /** A JavaScript value used as a condition: absent and empty strings are falsy. */
  predicate Truthy(s: Option<string>)
  {
    s.Some? && s.value != ""
  }

  // ---------------------------------------------------------------------------
  // Case mapping (ASCII letters; see README for what is left out)
  // ---------------------------------------------------------------------------

  function LowerChar(c: char): char
  {
    if 'A' <= c <= 'Z' then (c as int + 32) as char else c
  }

  function UpperChar(c: char): char
  {
    if 'a' <= c <= 'z' then (c as int - 32) as char else c
  }

  /** `s.toLowerCase()` */
  function ToLower(s: string): (r: string)
    ensures |r| == |s|
    ensures forall i :: 0 <= i < |s| ==> r[i] == LowerChar(s[i])
  {
    seq(|s|, i requires 0 <= i < |s| => LowerChar(s[i]))
  }

  /** `s.toUpperCase()` */
  function ToUpper(s: string): (r: string)
    ensures |r| == |s|
    ensures forall i :: 0 <= i < |s| ==> r[i] == UpperChar(s[i])
  {
    seq(|s|, i requires 0 <= i < |s| => UpperChar(s[i]))
  }

  // ---------------------------------------------------------------------------
  // Whitespace and `trim`
  // ---------------------------------------------------------------------------

  /** The characters `String.prototype.trim` removes: the ECMAScript WhiteSpace
      and LineTerminator code points. */
  predicate IsWhitespace(c: char)
  {
    c == ' ' || c == '\t' || c == '\n' || c == '\r' || c == '\U{000B}' || c == '\U{000C}'
    || c == '\U{00A0}' || c == '\U{1680}' || ('\U{2000}' <= c <= '\U{200A}')
    || c == '\U{2028}' || c == '\U{2029}' || c == '\U{202F}' || c == '\U{205F}'
    || c == '\U{3000}' || c == '\U{FEFF}'
  }

  predicate AllWhitespace(s: string)
  {
    forall i :: 0 <= i < |s| ==> IsWhitespace(s[i])
  }

  function TrimStart(s: string): (r: string)
    ensures r != [] ==> !IsWhitespace(r[0])
    decreases |s|
  {
    if s != [] && IsWhitespace(s[0]) then TrimStart(s[1..]) else s
  }

  function TrimEnd(s: string): (r: string)
    decreases |s|
  {
    if s != [] && IsWhitespace(s[|s| - 1]) then TrimEnd(s[..|s| - 1]) else s
  }

  /** `s.trim()` */
  function Trim(s: string): string
  {
    TrimEnd(TrimStart(s))
  }

  lemma {:induction false} TrimStartEmpty(s: string)
    ensures TrimStart(s) == [] <==> AllWhitespace(s)
    decreases |s|
  {
    if s != [] && IsWhitespace(s[0]) {
      TrimStartEmpty(s[1..]);
      assert AllWhitespace(s) <==> AllWhitespace(s[1..]) by {
        if AllWhitespace(s[1..]) {
          forall i | 0 <= i < |s| ensures IsWhitespace(s[i]) {
            if i > 0 { assert s[i] == s[1..][i - 1]; }
          }
        }
      }
    }
  }

  lemma {:induction false} TrimEndEmpty(s: string)
    ensures TrimEnd(s) == [] <==> AllWhitespace(s)
    decreases |s|
  {
    if s != [] && IsWhitespace(s[|s| - 1]) {
      var t := s[..|s| - 1];
      TrimEndEmpty(t);
      assert AllWhitespace(s) <==> AllWhitespace(t) by {
        if AllWhitespace(t) {
          forall i | 0 <= i < |s| ensures IsWhitespace(s[i]) {
            if i < |s| - 1 { assert s[i] == t[i]; }
          }
        }
      }
    }
  }

  /** A string trims to nothing exactly when every character in it is whitespace:
      this is what `!s.trim()` tests. */
  lemma TrimEmptyIffBlank(s: string)
    ensures Trim(s) == [] <==> AllWhitespace(s)
  {
    var t := TrimStart(s);
    TrimStartEmpty(s);
    TrimEndEmpty(t);
    if t != [] {
      assert !IsWhitespace(t[0]);
    }
  }

  // ---------------------------------------------------------------------------
  // Substrings: `s.includes(t)` and `s.startsWith(t)`
  // ---------------------------------------------------------------------------

  /** `s.includes(t)` */
  predicate Includes(s: string, t: string)
  {
    exists i :: 0 <= i <= |s| && t <= s[i..]
  }

  // ---------------------------------------------------------------------------
  // Decimal rendering: `String(n)` / template interpolation of a non-negative integer
  // ---------------------------------------------------------------------------

  predicate IsDigit(c: char)
  {
    '0' <= c <= '9'
  }

  function DigitChar(d: nat): (c: char)
    requires d < 10
    ensures IsDigit(c)
  {
    ('0' as int + d) as char
  }

  function DigitValue(c: char): nat
    requires IsDigit(c)
  {
    c as int - '0' as int
  }

  /** `String(n)` for an integer n >= 0: its decimal digits, most significant first. */
  function NatToString(n: nat): (s: string)
    ensures |s| > 0
    ensures forall i :: 0 <= i < |s| ==> IsDigit(s[i])
    ensures n < 10 <==> |s| == 1
    decreases n
  {
    if n < 10 then [DigitChar(n)] else NatToString(n / 10) + [DigitChar(n % 10)]
  }

  /** Reads a string of digits back as a number (leading zeros allowed). */
  function ParseDigits(s: string): nat
    requires forall i :: 0 <= i < |s| ==> IsDigit(s[i])
    decreases |s|
  {
    if s == [] then 0 else ParseDigits(s[..|s| - 1]) * 10 + DigitValue(s[|s| - 1])
  }

  /** Rendering is inverted by reading the digits back. */
  lemma {:induction false} ParseNatToString(n: nat)
    ensures ParseDigits(NatToString(n)) == n
    decreases n
  {
    var s := NatToString(n);
    if n >= 10 {
      ParseNatToString(n / 10);
      assert s[..|s| - 1] == NatToString(n / 10);
    }
  }

  /** A leading '0' does not change the value of a digit string. */
  lemma {:induction false} ParseLeadingZero(s: string)
    requires forall i :: 0 <= i < |s| ==> IsDigit(s[i])
    ensures ParseDigits("0" + s) == ParseDigits(s)
    decreases |s|
  {
    if s != [] {
      var t := "0" + s;
      assert t[..|t| - 1] == "0" + s[..|s| - 1];
      ParseLeadingZero(s[..|s| - 1]);
    }
  }

  /** Rendering is injective: different numbers never print alike. */
  lemma NatToStringInjective(m: nat, n: nat)
    requires NatToString(m) == NatToString(n)
    ensures m == n
  {
    ParseNatToString(m);
    ParseNatToString(n);
  }

  // ---------------------------------------------------------------------------
  // `Math.floor(a / b)` and `Math.round(a / b)` for integers a and b > 0
  // ---------------------------------------------------------------------------

  /** Dafny's integer division rounds toward negative infinity for a positive
      divisor, which is what `Math.floor(a / b)` computes. */
  lemma FloorOfQuotient(a: int, b: int)
    requires b > 0
    ensures (a as real / b as real).Floor == a / b
  {
    var q, r := a / b, a % b;
    assert a == b * q + r && 0 <= r < b;
    assert a as real / b as real == q as real + r as real / b as real;
    assert 0.0 <= r as real / b as real < 1.0;
  }

  /** `Math.round(a / b)`: the nearest integer, halves rounded up. */
  function RoundQuotient(a: int, b: int): (r: int)
    requires b > 0
    ensures 2 * b * r - b <= 2 * a < 2 * b * r + b
  {
    var q := (2 * a + b) / (2 * b);
    assert 2 * a + b == 2 * b * q + (2 * a + b) % (2 * b);
    q
  }

  /** Helper for the rounding lemmas: below one multiple of a positive b means below 1. */
  lemma MulBelowDivisor(b: int, x: int)
    requires b > 0
    ensures b * x < b ==> x < 1
  {
    if x >= 1 {
      assert b * x == b + b * (x - 1);
      assert b * (x - 1) >= 0;
    }
  }

  /** The contract of RoundQuotient pins down one integer only. */
  lemma RoundQuotientUnique(a: int, b: int, k: int)
    requires b > 0
    requires 2 * b * k - b <= 2 * a < 2 * b * k + b
    ensures k == RoundQuotient(a, b)
  {
    var r := RoundQuotient(a, b);
    assert (2 * b) * (k - r) == 2 * b * k - 2 * b * r;
    assert (2 * b) * (r - k) == 2 * b * r - 2 * b * k;
    MulBelowDivisor(2 * b, k - r);
    MulBelowDivisor(2 * b, r - k);
  }

  /** `Math.round(x)` is `floor(x + 0.5)`; applied to a / b this is RoundQuotient. */
  lemma RoundOfQuotient(a: int, b: int)
    requires b > 0
    ensures (a as real / b as real + 0.5).Floor == RoundQuotient(a, b)
  {
    var x := a as real / b as real + 0.5;
    assert x == (2 * a + b) as real / (2 * b) as real;
    FloorOfQuotient(2 * a + b, 2 * b);
  }
}
