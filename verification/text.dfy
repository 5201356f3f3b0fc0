/** String helpers with the semantics of the JavaScript built-ins the user
    interface relies on: `toLowerCase` (as far as it can produce ASCII),
    decimal rendering of a non-negative integer, character replacement and
    `split(sep)[0]`. */
module Text {

  /** The lower-case image of one character, restricted to the mappings that
      yield ASCII: `A`..`Z`, and U+212A KELVIN SIGN, which `toLowerCase` maps
      to `k`. Every other character is returned unchanged. The real mapping
      yields an ASCII letter for one more character: U+0130 lowers to `i`
      followed by U+0307, which makes the text one character longer, so a
      name containing it still equals no ASCII name of its original length
      and comparisons against ASCII names are unaffected. */
  function LowerChar(c: char): char {
    if 'A' <= c <= 'Z' then (c as int + 32) as char
    else if c == '\U{212A}' then 'k'
    else c
  }

  /** `s.toLowerCase()`, character by character. */
  function Lower(s: string): (r: string)
    ensures |r| == |s|
    ensures forall i :: 0 <= i < |s| ==> r[i] == LowerChar(s[i])
  {
    seq(|s|, i requires 0 <= i < |s| => LowerChar(s[i]))
  }

  /** `a` and `b` are the same text up to letter case. */
  predicate SameIgnoringCase(a: string, lower: string) {
    |a| == |lower| && forall i :: 0 <= i < |a| ==> LowerChar(a[i]) == lower[i]
  }

  /** Lower-casing and comparing equals comparing character by character. */
  lemma LowerEqualsIff(a: string, lower: string)
    ensures Lower(a) == lower <==> SameIgnoringCase(a, lower)
  {
    if SameIgnoringCase(a, lower) {
      assert Lower(a) == lower;
    }
  }

  /** A decimal digit for `d`. */
  function Digit(d: nat): (c: char)
    requires d < 10
    ensures '0' <= c <= '9'
    ensures (c as int) - ('0' as int) == d
  {
    (('0' as int) + d) as char
  }

  predicate IsDigit(c: char) {
    '0' <= c <= '9'
  }

  /** `String(n)` for a non-negative integer: its shortest decimal rendering. */
  function Decimal(n: nat): (r: string)
    ensures |r| >= 1
    ensures forall i :: 0 <= i < |r| ==> IsDigit(r[i])
    ensures r[0] == '0' ==> n == 0
    decreases n
  {
    if n < 10 then [Digit(n)] else Decimal(n / 10) + [Digit(n % 10)]
  }

  /** The value of a string of decimal digits. */
  function ParseDecimal(s: string): nat
    requires forall i :: 0 <= i < |s| ==> IsDigit(s[i])
  {
    if |s| == 0 then 0
    else
      var d := (s[|s| - 1] as int) - ('0' as int);
      assert IsDigit(s[|s| - 1]);
      ParseDecimal(s[..|s| - 1]) * 10 + d
  }

  /** Rendering then reading a number gives the number back. */
  lemma {:induction false} DecimalRoundTrip(n: nat)
    ensures ParseDecimal(Decimal(n)) == n
    decreases n
  {
    if n >= 10 {
      var r := Decimal(n);
      assert r[..|r| - 1] == Decimal(n / 10);
      DecimalRoundTrip(n / 10);
    }
  }

  /** `s.replace(/[<a><b>]/g, sub)`: every occurrence of `a` or `b` becomes `sub`. */
  function ReplaceEach(s: string, a: char, b: char, sub: char): (r: string)
    ensures |r| == |s|
    ensures forall i :: 0 <= i < |s| ==> r[i] == (if s[i] == a || s[i] == b then sub else s[i])
  {
    seq(|s|, i requires 0 <= i < |s| => if s[i] == a || s[i] == b then sub else s[i])
  }

  /** `s.split(sep)[0]`: the text before the first `sep`, or all of `s`. */
  function BeforeFirst(s: string, sep: char): (r: string)
    ensures sep !in r
    ensures r <= s
    ensures |r| < |s| ==> s[|r|] == sep
  {
    if |s| == 0 then ""
    else if s[0] == sep then ""
    else [s[0]] + BeforeFirst(s[1..], sep)
  }
}
