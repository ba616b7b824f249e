/**
 * Character classes and decimal digit strings as ECMAScript regular expressions
 * and number parsing see them: `\d` is exactly the ASCII digits `0`-`9`, and a
 * word character (for `\b`) is `[A-Za-z0-9_]`.
 */
module JsText {

  predicate IsDigit(c: char) {
    '0' <= c <= '9'
  }

  /** The characters of the class `\w` (no Unicode or case-folding flags). */
  predicate IsWordChar(c: char) {
    'A' <= c <= 'Z' || 'a' <= c <= 'z' || IsDigit(c) || c == '_'
  }

  predicate AllDigits(t: string) {
    forall p :: 0 <= p < |t| ==> IsDigit(t[p])
  }

  predicate HasDigit(s: string) {
    exists p :: 0 <= p < |s| && IsDigit(s[p])
  }

  /** The end of the maximal run of digits that starts at position i. */
  function DigitRunEnd(s: string, i: nat): (j: nat)
    requires i <= |s|
    ensures i <= j <= |s|
    ensures forall p :: i <= p < j ==> IsDigit(s[p])
    ensures j == |s| || !IsDigit(s[j])
    decreases |s| - i
  {
    if i < |s| && IsDigit(s[i]) then DigitRunEnd(s, i + 1) else i
  }

  function DigitValue(c: char): nat
    requires IsDigit(c)
  {
    c as int - '0' as int
  }

  /** The natural number a string of decimal digits denotes (0 for the empty string). */
  function DigitsValue(t: string): nat
    requires AllDigits(t)
    decreases |t|
  {
    if t == [] then 0 else DigitsValue(t[..|t| - 1]) * 10 + DigitValue(t[|t| - 1])
  }

  function Pow10(n: nat): (r: nat)
    ensures r >= 1
  {
    if n == 0 then 1 else 10 * Pow10(n - 1)
  }

  /** The digits of a concatenation denote the first part shifted left by the length of the second. */
  lemma {:induction false} DigitsValueAppend(a: string, b: string)
    requires AllDigits(a) && AllDigits(b)
    ensures AllDigits(a + b)
    ensures DigitsValue(a + b) == DigitsValue(a) * Pow10(|b|) + DigitsValue(b)
    decreases |b|
  {
    if b == [] {
      assert a + b == a;
    } else {
      var b' := b[..|b| - 1];
      var last := DigitValue(b[|b| - 1]);
      assert (a + b)[..|a + b| - 1] == a + b';
      assert (a + b)[|a + b| - 1] == b[|b| - 1];
      assert DigitsValue(a + b) == DigitsValue(a + b') * 10 + last;
      DigitsValueAppend(a, b');
      assert DigitsValue(b) == DigitsValue(b') * 10 + last;
      assert Pow10(|b|) == 10 * Pow10(|b'|);
      ShiftByTen(DigitsValue(a), Pow10(|b'|), DigitsValue(b'), last);
    }
  }

  /** Appending one digit to `x * p + y` multiplies both parts' weights by ten. */
  lemma ShiftByTen(x: int, p: int, y: int, d: int)
    ensures (x * p + y) * 10 + d == x * (10 * p) + (y * 10 + d)
  {
  }

  /**
   * The language of `\d+(\.\d+)?`: a non-empty digit run, optionally followed by
   * one `.` and a second non-empty digit run.
   */
  predicate IsDecimalNumeral(t: string) {
    (|t| > 0 && AllDigits(t))
    || exists p :: 0 < p < |t| - 1 && t[p] == '.' && AllDigits(t[..p]) && AllDigits(t[p + 1..])
  }

  /**
   * The exact value of a decimal numeral: the integer digits, plus the fraction
   * digits over ten to the power of their count.
   */
  function NumeralValue(t: string): real
    requires IsDecimalNumeral(t)
  {
    var p := DigitRunEnd(t, 0);
    if p == |t| then DigitsValue(t) as real
    else
      NumeralPoint(t);
      PointValue(t[..p], t[p + 1..])
  }

  /** Integer digits plus fraction digits over ten to the power of their count. */
  function PointValue(intDigits: string, fracDigits: string): real
    requires AllDigits(intDigits) && AllDigits(fracDigits)
  {
    DigitsValue(intDigits) as real + (DigitsValue(fracDigits) as real) / (Pow10(|fracDigits|) as real)
  }

  /** A numeral that is not all digits has its point where the leading digit run ends. */
  lemma NumeralPoint(t: string)
    requires IsDecimalNumeral(t)
    ensures var p := DigitRunEnd(t, 0);
      p == |t| || (0 < p < |t| - 1 && t[p] == '.' && AllDigits(t[..p]) && AllDigits(t[p + 1..]))
  {
    if !(|t| > 0 && AllDigits(t)) {
      var p :| 0 < p < |t| - 1 && t[p] == '.' && AllDigits(t[..p]) && AllDigits(t[p + 1..]);
      PointEndsLeadingRun(t, p);
    } else {
      RunEndsAt(t, 0, |t|);
    }
  }

  /** A numeral begins with a digit. */
  lemma NumeralStartsWithDigit(t: string)
    requires IsDecimalNumeral(t)
    ensures |t| > 0 && IsDigit(t[0])
  {
    NumeralPoint(t);
  }

  /** In a numeral with a point, the point sits where the leading digit run ends. */
  lemma PointEndsLeadingRun(t: string, p: nat)
    requires 0 < p < |t| - 1 && t[p] == '.' && AllDigits(t[..p]) && AllDigits(t[p + 1..])
    ensures DigitRunEnd(t, 0) == p
    ensures !AllDigits(t)
  {
    assert forall q :: 0 <= q < p ==> t[..p][q] == t[q];
  }

  /** A run of digits from a to b that stops at b is the maximal run from a. */
  lemma {:induction false} RunEndsAt(s: string, a: nat, b: nat)
    requires a <= b <= |s|
    requires forall q :: a <= q < b ==> IsDigit(s[q])
    requires b == |s| || !IsDigit(s[b])
    ensures DigitRunEnd(s, a) == b
    decreases b - a
  {
    if a < b {
      RunEndsAt(s, a + 1, b);
    }
  }
}
