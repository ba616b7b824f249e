/**
 * The reading utilities of src/utils/ocrUtils.ts: the file-type gate at the start
 * of `processImageOCR`, `validateReading` (built on ECMAScript's `parseFloat`) and
 * `calculateUsage`.
 *
 * Numbers are exact: `parseFloat` yields the real value its decimal prefix denotes,
 * or one of the two infinities, or NaN. IEEE rounding, overflow of very long digit
 * strings and negative zero are not modelled.
 */
module OcrUtils {
  import opened Wrappers
  import opened JsText

  // ---------------------------------------------------------------------------
  // The file-type gate of processImageOCR

  /** The parts of a browser `File` the model reads. */
  datatype ImageFile = ImageFile(name: string, mimeType: string)

  const InvalidFileType := "Invalid file type. Please upload an image."

  /** The error `processImageOCR` rejects with before any recognition, if any. */
  function CheckImageFile(file: Option<ImageFile>): (err: Option<string>)
    ensures err.Some? ==> err.value == InvalidFileType
  {
    if file.None? || !("image/" <= file.value.mimeType) then Some(InvalidFileType) else None
  }

  /** The gate accepts exactly the files whose type begins with `image/`; the test is case-sensitive. */
  lemma CheckImageFileAccepts(file: ImageFile)
    ensures CheckImageFile(Some(file)).None? <==>
      |file.mimeType| >= 6 && file.mimeType[..6] == "image/"
  {
  }

  lemma CheckImageFileExamples()
    ensures CheckImageFile(None) == Some(InvalidFileType)
    ensures CheckImageFile(Some(ImageFile("meter.jpg", "image/jpeg"))) == None
    ensures CheckImageFile(Some(ImageFile("meter.pdf", "application/pdf"))) == Some(InvalidFileType)
    ensures CheckImageFile(Some(ImageFile("meter.jpg", "IMAGE/JPEG"))) == Some(InvalidFileType)
    ensures CheckImageFile(Some(ImageFile("meter", "image"))) == Some(InvalidFileType)
  {
    assert !("image/" <= "IMAGE/JPEG") by { assert "IMAGE/JPEG"[0] != 'i'; }
  }

  // ---------------------------------------------------------------------------
  // parseFloat (section 19.2.4 of ECMA-262)

  /** An ECMAScript Number, with finite values taken as exact reals. */
  datatype JsNumber = Finite(value: real) | PositiveInfinity | NegativeInfinity | NaN

  /** StrWhiteSpaceChar: WhiteSpace (tab, VT, FF, ZWNBSP, the Zs space separators) and LineTerminator. */
  predicate IsStrWhiteSpaceChar(c: char) {
    var n := c as int;
    n == 0x09 || n == 0x0B || n == 0x0C || n == 0xFEFF
    || n == 0x20 || n == 0xA0 || n == 0x1680 || 0x2000 <= n <= 0x200A
    || n == 0x202F || n == 0x205F || n == 0x3000
    || n == 0x0A || n == 0x0D || n == 0x2028 || n == 0x2029
  }

  /** The string with its leading white space removed. */
  function TrimStart(s: string): (t: string)
    ensures |t| <= |s| && t == s[|s| - |t|..]
    ensures forall p :: 0 <= p < |s| - |t| ==> IsStrWhiteSpaceChar(s[p])
    ensures t == [] || !IsStrWhiteSpaceChar(t[0])
  {
    if s != [] && IsStrWhiteSpaceChar(s[0]) then
      var t := TrimStart(s[1..]);
      assert forall p :: 1 <= p < |s| - |t| ==> s[p] == s[1..][p - 1];
      t
    else s
  }

  /** The value of an unsigned StrDecimalLiteral prefix. */
  datatype UnsignedLiteral = InfinityLiteral | DecimalLiteral(value: real)

  /** m times ten to the power e. */
  function ScaleBy(m: real, e: int): real {
    if e >= 0 then m * (Pow10(e) as real) else m / (Pow10(-e) as real)
  }

  /**
   * The value of the ExponentPart that begins at b[at], or 0 when none is there:
   * `e` or `E`, an optional sign, then at least one digit.
   */
  function ExponentAt(b: string, at: nat): int
    requires at <= |b|
  {
    if at < |b| && (b[at] == 'e' || b[at] == 'E') then
      var signed := at + 1 < |b| && (b[at + 1] == '+' || b[at + 1] == '-');
      var digitsStart := if signed then at + 2 else at + 1;
      var digitsEnd := DigitRunEnd(b, digitsStart);
      if digitsEnd == digitsStart then 0
      else
        var magnitude: int := DigitsValue(b[digitsStart..digitsEnd]);
        if signed && b[at + 1] == '-' then -magnitude else magnitude
    else 0
  }

  /**
   * The value of the longest prefix of b that is a StrUnsignedDecimalLiteral:
   * `Infinity`, or digits with an optional point and fraction (at least one digit
   * in all) and an optional exponent. None when no prefix qualifies.
   */
  function ScanUnsignedDecimal(b: string): Option<UnsignedLiteral> {
    if "Infinity" <= b then Some(InfinityLiteral)
    else if DigitRunEnd(b, 0) == 0 && DigitRunEnd(b, FractionStart(b)) == FractionStart(b) then None
    else Some(DecimalLiteral(DecimalPrefixValue(b)))
  }

  /** The value of the digits, fraction and exponent at the start of b. */
  function DecimalPrefixValue(b: string): real {
    var intEnd := DigitRunEnd(b, 0);
    var fracStart := FractionStart(b);
    var fracEnd := DigitRunEnd(b, fracStart);
    ScaleBy(DigitsOverPoint(b[..intEnd], b[fracStart..fracEnd]), ExponentAt(b, fracEnd))
  }

  /** Where the fraction digits begin: past the point that follows the integer digits, if one does. */
  function FractionStart(b: string): (k: nat)
    ensures DigitRunEnd(b, 0) <= k <= |b|
  {
    var intEnd := DigitRunEnd(b, 0);
    if intEnd < |b| && b[intEnd] == '.' then intEnd + 1 else intEnd
  }

  /** The value of integer digits and fraction digits written around a decimal point. */
  function DigitsOverPoint(intDigits: string, fracDigits: string): real
    requires AllDigits(intDigits) && AllDigits(fracDigits)
  {
    DigitsValueAppend(intDigits, fracDigits);
    (DigitsValue(intDigits + fracDigits) as real) / (Pow10(|fracDigits|) as real)
  }

  /** `parseFloat(s)`: skip leading white space, then read a signed literal prefix. */
  function ParseFloat(s: string): JsNumber {
    ParseSigned(TrimStart(s))
  }

  /** An optional sign, then the longest unsigned literal prefix; NaN when there is none. */
  function ParseSigned(t: string): JsNumber {
    var negative := t != [] && t[0] == '-';
    var body := if t != [] && (t[0] == '-' || t[0] == '+') then t[1..] else t;
    match ScanUnsignedDecimal(body)
    case None => NaN
    case Some(InfinityLiteral) => if negative then NegativeInfinity else PositiveInfinity
    case Some(DecimalLiteral(v)) => Finite(if negative then -v else v)
  }

  /** Characters that would extend a decimal literal: a digit, a point or an exponent mark. */
  predicate ContinuesNumeral(c: char) {
    IsDigit(c) || c == '.' || c == 'e' || c == 'E'
  }

  /** Leading white space does not change what parseFloat reads. */
  lemma ParseSkipsLeadingWhiteSpace(w: string, s: string)
    requires forall p :: 0 <= p < |w| ==> IsStrWhiteSpaceChar(w[p])
    ensures ParseFloat(w + s) == ParseFloat(s)
  {
    TrimStartSkips(w, s);
  }

  lemma {:induction false} TrimStartSkips(w: string, s: string)
    requires forall p :: 0 <= p < |w| ==> IsStrWhiteSpaceChar(w[p])
    ensures TrimStart(w + s) == TrimStart(s)
    decreases |w|
  {
    if w == [] {
      assert w + s == s;
    } else {
      assert (w + s)[0] == w[0];
      assert (w + s)[1..] == w[1..] + s;
      TrimStartSkips(w[1..], s);
    }
  }

  /** Text that starts with something other than white space is not trimmed. */
  lemma TrimStartKeeps(s: string)
    requires s == [] || !IsStrWhiteSpaceChar(s[0])
    ensures TrimStart(s) == s
  {
  }

  /**
   * A decimal numeral followed by text that cannot extend it parses to the numeral's
   * exact value: parseFloat reads the longest numeric prefix and ignores the rest.
   */
  lemma ParseNumeralPrefix(t: string, rest: string)
    requires IsDecimalNumeral(t)
    requires rest == [] || !ContinuesNumeral(rest[0])
    ensures ParseFloat(t + rest) == Finite(NumeralValue(t))
  {
    var b := t + rest;
    NumeralStartsWithDigit(t);
    assert b[0] == t[0];
    TrimStartKeeps(b);
    ScanNumeralPrefix(t, rest);
    ParseUnsignedDecimal(b, NumeralValue(t));
  }

  /** Text that starts with a digit has no sign: parseFloat returns the unsigned literal's value. */
  lemma ParseUnsignedDecimal(b: string, v: real)
    requires b != [] && IsDigit(b[0])
    requires ScanUnsignedDecimal(b) == Some(DecimalLiteral(v))
    ensures ParseFloat(b) == Finite(v)
  {
    TrimStartKeeps(b);
  }

  lemma ScanNumeralPrefix(t: string, rest: string)
    requires IsDecimalNumeral(t)
    requires rest == [] || !ContinuesNumeral(rest[0])
    ensures ScanUnsignedDecimal(t + rest) == Some(DecimalLiteral(NumeralValue(t)))
  {
    if |t| > 0 && AllDigits(t) {
      ScanDigitsPrefix(t, rest);
    } else {
      var p :| 0 < p < |t| - 1 && t[p] == '.' && AllDigits(t[..p]) && AllDigits(t[p + 1..]);
      ScanPointPrefix(t, rest, p);
    }
  }

  lemma ScanDigitsPrefix(t: string, rest: string)
    requires |t| > 0 && AllDigits(t)
    requires rest == [] || !ContinuesNumeral(rest[0])
    ensures ScanUnsignedDecimal(t + rest) == Some(DecimalLiteral(DigitsValue(t) as real))
  {
    var b := t + rest;
    NotInfinity(b);
    assert |t| < |b| ==> b[|t|] == rest[0];
    assert forall q :: 0 <= q < |t| ==> b[q] == t[q];
    RunEndsAt(b, 0, |t|);
    RunEndsAt(b, |t|, |t|);
    assert FractionStart(b) == |t|;
    assert ExponentAt(b, |t|) == 0;
    assert b[..|t|] == t && b[|t|..|t|] == [];
    DigitsOverNoPoint(t);
    DecimalPrefixValueAt(b, |t|, |t|, |t|);
  }

  /** The literal value once the positions of the integer digits, point and fraction digits are known. */
  lemma DecimalPrefixValueAt(b: string, intEnd: nat, fracStart: nat, fracEnd: nat)
    requires DigitRunEnd(b, 0) == intEnd && FractionStart(b) == fracStart && DigitRunEnd(b, fracStart) == fracEnd
    requires ExponentAt(b, fracEnd) == 0
    ensures intEnd <= fracStart <= fracEnd <= |b|
    ensures AllDigits(b[..intEnd]) && AllDigits(b[fracStart..fracEnd])
    ensures DecimalPrefixValue(b) == DigitsOverPoint(b[..intEnd], b[fracStart..fracEnd])
  {
    DecimalPrefixValueFrom(b, intEnd, fracStart, fracEnd);
    assert Pow10(0) == 1;
  }

  /** Digits with no fraction digits after the point denote their own value. */
  lemma DigitsOverNoPoint(t: string)
    requires AllDigits(t)
    ensures DigitsOverPoint(t, []) == DigitsValue(t) as real
  {
    assert t + [] == t;
  }

  lemma NotInfinity(b: string)
    requires b != [] && IsDigit(b[0])
    ensures !("Infinity" <= b)
  {
    assert b[0] != 'I';
  }

  lemma ScanPointPrefix(t: string, rest: string, p: nat)
    requires 0 < p < |t| - 1 && t[p] == '.' && AllDigits(t[..p]) && AllDigits(t[p + 1..])
    requires rest == [] || !ContinuesNumeral(rest[0])
    ensures IsDecimalNumeral(t)
    ensures ScanUnsignedDecimal(t + rest) == Some(DecimalLiteral(NumeralValue(t)))
  {
    var b := t + rest;
    PointPositions(t, rest, p);
    DecimalPrefixValueAt(b, p, p + 1, |t|);
    assert b[..p] == t[..p] && b[p + 1..|t|] == t[p + 1..];
    PointNumeralValue(t, p);
    assert !("Infinity" <= b) by { assert b[0] != 'I'; }
  }

  /** Where parseFloat finds the integer digits, the point and the fraction digits of a numeral with a point. */
  lemma PointPositions(t: string, rest: string, p: nat)
    requires 0 < p < |t| - 1 && t[p] == '.' && AllDigits(t[..p]) && AllDigits(t[p + 1..])
    requires rest == [] || (!IsDigit(rest[0]) && rest[0] != '.')
    ensures (t + rest)[0] == t[0] && IsDigit(t[0])
    ensures DigitRunEnd(t + rest, 0) == p && FractionStart(t + rest) == p + 1
    ensures DigitRunEnd(t + rest, p + 1) == |t|
    ensures (rest == [] || !ContinuesNumeral(rest[0])) ==> ExponentAt(t + rest, |t|) == 0
  {
    var b := t + rest;
    assert |t| < |b| ==> b[|t|] == rest[0];
    assert forall q :: 0 <= q < |t| ==> b[q] == t[q];
    assert t[..p][0] == t[0];
    assert forall q :: 0 <= q < p ==> IsDigit(b[q]) by {
      forall q | 0 <= q < p ensures IsDigit(b[q]) { assert t[..p][q] == b[q]; }
    }
    RunEndsAt(b, 0, p);
    assert forall q :: p + 1 <= q < |t| ==> IsDigit(b[q]) by {
      forall q | p + 1 <= q < |t| ensures IsDigit(b[q]) { assert t[p + 1..][q - p - 1] == b[q]; }
    }
    RunEndsAt(b, p + 1, |t|);
  }

  /** The value of a numeral with a point is its digits, point removed, over a power of ten. */
  lemma PointNumeralValue(t: string, p: nat)
    requires 0 < p < |t| - 1 && t[p] == '.' && AllDigits(t[..p]) && AllDigits(t[p + 1..])
    ensures IsDecimalNumeral(t)
    ensures NumeralValue(t) == DigitsOverPoint(t[..p], t[p + 1..])
  {
    NumeralValueAtPoint(t, p);
    DigitsOverPointValue(t[..p], t[p + 1..]);
  }

  /** Digits written around a point denote the integer part plus the fraction over a power of ten. */
  lemma DigitsOverPointValue(intDigits: string, fracDigits: string)
    requires AllDigits(intDigits) && AllDigits(fracDigits)
    ensures DigitsOverPoint(intDigits, fracDigits) == PointValue(intDigits, fracDigits)
  {
    DigitsValueAppend(intDigits, fracDigits);
    ShiftedQuotient(DigitsValue(intDigits + fracDigits), DigitsValue(intDigits),
      Pow10(|fracDigits|), DigitsValue(fracDigits));
  }

  lemma NumeralValueAtPoint(t: string, p: nat)
    requires 0 < p < |t| - 1 && t[p] == '.' && AllDigits(t[..p]) && AllDigits(t[p + 1..])
    ensures IsDecimalNumeral(t)
    ensures NumeralValue(t) == PointValue(t[..p], t[p + 1..])
  {
    assert IsDecimalNumeral(t) by {
      assert 0 < p < |t| - 1 && t[p] == '.' && AllDigits(t[..p]) && AllDigits(t[p + 1..]);
    }
    PointEndsLeadingRun(t, p);
    assert DigitRunEnd(t, 0) != |t|;
  }

  /** Dividing `a * q + f` by `q` leaves `a` plus the fraction `f / q`. */
  lemma ShiftedQuotient(n: nat, a: nat, q: nat, f: nat)
    requires q >= 1 && n == a * q + f
    ensures (n as real) / (q as real) == a as real + (f as real) / (q as real)
  {
    RealOfShift(a, q, f);
    ShiftDivide(a as real, f as real, q as real);
  }

  lemma RealOfShift(a: nat, q: nat, f: nat)
    ensures ((a * q + f) as real) == (a as real) * (q as real) + (f as real)
  {
  }

  lemma ShiftDivide(a: real, f: real, q: real)
    requires q > 0.0
    ensures (a * q + f) / q == a + f / q
  {
  }

  /** An exponent after a numeral scales its value: `t` `e` `d` reads as the numeral times ten to the `d`. */
  lemma ParseExponent(t: string, d: string)
    requires IsDecimalNumeral(t) && |d| > 0 && AllDigits(d)
    ensures ParseFloat(t + "e" + d) == Finite(ScaleBy(NumeralValue(t), DigitsValue(d)))
  {
    ExponentPrefixValue(t, d);
    ParseFromDigit(t + "e" + d, ScaleBy(NumeralValue(t), DigitsValue(d)));
  }

  /** Text that begins with a digit parses to the value of its decimal literal prefix. */
  lemma ParseFromDigit(b: string, v: real)
    requires b != [] && IsDigit(b[0]) && DecimalPrefixValue(b) == v
    ensures ParseFloat(b) == Finite(v)
  {
    NotInfinity(b);
    ParseUnsignedDecimal(b, v);
  }

  /** The digits of `t` `e` `d` before the exponent are those of `t`, and the exponent is the value of `d`. */
  lemma ExponentPrefixValue(t: string, d: string)
    requires IsDecimalNumeral(t) && |d| > 0 && AllDigits(d)
    ensures t + "e" + d != [] && IsDigit((t + "e" + d)[0])
    ensures DecimalPrefixValue(t + "e" + d) == ScaleBy(NumeralValue(t), DigitsValue(d))
  {
    var rest := "e" + d;
    var b := t + rest;
    assert t + "e" + d == b;
    NumeralStartsWithDigit(t);
    assert b[0] == t[0] && b[|t|] == 'e';
    NumeralMantissa(t, rest);
    ExponentDigits(b, |t|, d);
  }

  /** `e` followed by digits to the end of the text is an exponent with their value. */
  lemma ExponentDigits(b: string, at: nat, d: string)
    requires |d| > 0 && AllDigits(d) && at + 1 + |d| == |b| && b[at] == 'e' && b[at + 1..] == d
    ensures ExponentAt(b, at) == DigitsValue(d)
  {
    assert IsDigit(d[0]) && b[at + 1] == d[0];
    assert !(b[at + 1] == '+' || b[at + 1] == '-');
    assert forall q :: at + 1 <= q < |b| ==> b[q] == d[q - at - 1];
    RunEndsAt(b, at + 1, |b|);
    assert b[at + 1..|b|] == d;
  }

  /**
   * Where parseFloat finds the digits of a numeral followed by text that does not
   * begin with a digit or a point, and the value they denote before any exponent.
   */
  lemma NumeralMantissa(t: string, rest: string)
    requires IsDecimalNumeral(t)
    requires rest == [] || (!IsDigit(rest[0]) && rest[0] != '.')
    ensures DecimalPrefixValue(t + rest) == ScaleBy(NumeralValue(t), ExponentAt(t + rest, |t|))
  {
    if |t| > 0 && AllDigits(t) {
      DigitsMantissa(t, rest);
    } else {
      var p :| 0 < p < |t| - 1 && t[p] == '.' && AllDigits(t[..p]) && AllDigits(t[p + 1..]);
      PointMantissa(t, rest, p);
    }
  }

  lemma DigitsMantissa(t: string, rest: string)
    requires |t| > 0 && AllDigits(t)
    requires rest == [] || (!IsDigit(rest[0]) && rest[0] != '.')
    ensures IsDecimalNumeral(t)
    ensures DecimalPrefixValue(t + rest) == ScaleBy(NumeralValue(t), ExponentAt(t + rest, |t|))
  {
    var b := t + rest;
    assert |t| < |b| ==> b[|t|] == rest[0];
    assert forall q :: 0 <= q < |t| ==> b[q] == t[q];
    RunEndsAt(b, 0, |t|);
    RunEndsAt(b, |t|, |t|);
    assert FractionStart(b) == |t|;
    assert b[..|t|] == t && b[|t|..|t|] == [];
    DigitsOverNoPoint(t);
    DecimalPrefixValueFrom(b, |t|, |t|, |t|);
  }

  lemma PointMantissa(t: string, rest: string, p: nat)
    requires 0 < p < |t| - 1 && t[p] == '.' && AllDigits(t[..p]) && AllDigits(t[p + 1..])
    requires rest == [] || (!IsDigit(rest[0]) && rest[0] != '.')
    ensures IsDecimalNumeral(t)
    ensures DecimalPrefixValue(t + rest) == ScaleBy(NumeralValue(t), ExponentAt(t + rest, |t|))
  {
    var b := t + rest;
    PointPositions(t, rest, p);
    assert b[..p] == t[..p] && b[p + 1..|t|] == t[p + 1..];
    PointNumeralValue(t, p);
    DecimalPrefixValueFrom(b, p, p + 1, |t|);
  }

  /** The literal value once the positions of the integer digits, point and fraction digits are known. */
  lemma DecimalPrefixValueFrom(b: string, intEnd: nat, fracStart: nat, fracEnd: nat)
    requires DigitRunEnd(b, 0) == intEnd && FractionStart(b) == fracStart && DigitRunEnd(b, fracStart) == fracEnd
    ensures intEnd <= fracStart <= fracEnd <= |b|
    ensures AllDigits(b[..intEnd]) && AllDigits(b[fracStart..fracEnd])
    ensures DecimalPrefixValue(b) ==
      ScaleBy(DigitsOverPoint(b[..intEnd], b[fracStart..fracEnd]), ExponentAt(b, fracEnd))
  {
  }

  /** A sign in front of digits negates their value. */
  lemma ParseNegatedDigits(d: string)
    requires |d| > 0 && AllDigits(d)
    ensures ParseFloat("-" + d) == Finite(-(DigitsValue(d) as real))
  {
    var s := "-" + d;
    assert s[0] == '-' && s[1..] == d + [];
    TrimStartKeeps(s);
    ScanDigitsPrefix(d, []);
    assert ScanUnsignedDecimal(s[1..]) == Some(DecimalLiteral(DigitsValue(d) as real));
    assert ParseFloat(s) == ParseSigned(s);
  }

  /** Text beginning with `Infinity` parses to positive infinity, whatever follows. */
  lemma ParseInfinityPrefix(rest: string)
    ensures ParseFloat("Infinity" + rest) == PositiveInfinity
  {
    var s := "Infinity" + rest;
    assert "Infinity" <= s;
    TrimStartKeeps(s);
  }

  // ---------------------------------------------------------------------------
  // validateReading

  predicate IsNaN(n: JsNumber) {
    n.NaN?
  }

  predicate IsFinite(n: JsNumber) {
    n.Finite?
  }

  /** The comparison `n >= 0` on Numbers: false for NaN and for negative infinity. */
  predicate AtLeastZero(n: JsNumber) {
    match n
    case Finite(v) => v >= 0.0
    case PositiveInfinity => true
    case NegativeInfinity => false
    case NaN => false
  }

  /** `validateReading`: the parsed number is not NaN, is finite and is not negative. */
  predicate ValidateReading(value: string) {
    var num := ParseFloat(value);
    !IsNaN(num) && IsFinite(num) && AtLeastZero(num)
  }

  /** Validation accepts exactly the readings that parse to a finite number at least zero. */
  lemma ValidateReadingExactly(s: string)
    ensures ValidateReading(s) <==> ParseFloat(s).Finite? && ParseFloat(s).value >= 0.0
  {
  }

  /** `parseFloat` of a reading that passed validation: a finite number that is not negative. */
  function ReadingValue(value: string): (v: real)
    requires ValidateReading(value)
    ensures ParseFloat(value) == Finite(v) && v >= 0.0
  {
    ParseFloat(value).value
  }

  /** Any reading that `parseFloat` reads as a number below zero is rejected, whatever follows or precedes it. */
  lemma NegativeParseRejected(s: string)
    requires ParseFloat(s).Finite? && ParseFloat(s).value < 0.0
    ensures !ValidateReading(s)
  {
  }

  /** A minus sign before a non-zero digit string is rejected: `parseFloat` gives the negated value. */
  lemma NegativeReadingRejected(d: string)
    requires |d| > 0 && AllDigits(d) && DigitsValue(d) > 0
    ensures !ValidateReading("-" + d)
  {
    ParseNegatedDigits(d);
    NegativeParseRejected("-" + d);
  }

  /** A text with no digit anywhere is never a valid reading: "", "abc", "NaN" and "Infinity" included. */
  lemma ValidReadingHasDigit(s: string)
    requires ValidateReading(s)
    ensures HasDigit(s)
  {
    FiniteParseHasDigit(s);
  }

  /** A finite `parseFloat` result needs a digit in the text: the literal has one before or after its point. */
  lemma FiniteParseHasDigit(s: string)
    ensures ParseSigned(TrimStart(s)).Finite? ==> HasDigit(s)
  {
    var t := TrimStart(s);
    SignedFiniteHasDigit(t);
    if HasDigit(t) {
      SuffixHasDigit(s, |s| - |t|);
    }
  }

  lemma SignedFiniteHasDigit(t: string)
    ensures ParseSigned(t).Finite? ==> HasDigit(t)
  {
    if !ParseSigned(t).Finite? {
      return;
    }
    var body := if t != [] && (t[0] == '-' || t[0] == '+') then t[1..] else t;
    assert ScanUnsignedDecimal(body).Some? && ScanUnsignedDecimal(body).value.DecimalLiteral?;
    DecimalLiteralHasDigit(body);
    if body != t {
      SuffixHasDigit(t, 1);
    }
  }

  /** A decimal literal has a digit before or just after its point. */
  lemma DecimalLiteralHasDigit(b: string)
    requires ScanUnsignedDecimal(b).Some? && ScanUnsignedDecimal(b).value.DecimalLiteral?
    ensures HasDigit(b)
  {
    var intEnd := DigitRunEnd(b, 0);
    if intEnd > 0 {
      assert IsDigit(b[0]);
    } else {
      var fracStart := FractionStart(b);
      assert DigitRunEnd(b, fracStart) != fracStart;
      assert IsDigit(b[fracStart]);
    }
  }

  lemma SuffixHasDigit(s: string, k: nat)
    requires k <= |s| && HasDigit(s[k..])
    ensures HasDigit(s)
  {
    var q :| 0 <= q < |s[k..]| && IsDigit(s[k..][q]);
    assert s[k + q] == s[k..][q];
  }

  /** A decimal numeral with trailing text that cannot extend it is a valid reading. */
  lemma NumeralWithTrailingTextAccepted(t: string, rest: string)
    requires IsDecimalNumeral(t)
    requires rest == [] || !ContinuesNumeral(rest[0])
    ensures ValidateReading(t + rest) && ReadingValue(t + rest) == NumeralValue(t)
  {
    ParseNumeralPrefix(t, rest);
    NumeralValueNonNegative(t);
  }

  lemma NumeralValueNonNegative(t: string)
    requires IsDecimalNumeral(t)
    ensures NumeralValue(t) >= 0.0
  {
  }

  lemma NoDigitRejected(s: string)
    requires !HasDigit(s)
    ensures !ValidateReading(s)
  {
    if ValidateReading(s) {
      ValidReadingHasDigit(s);
    }
  }

  lemma TwelveValue()
    ensures IsDecimalNumeral("12") && NumeralValue("12") == 12.0
  {
    assert DigitRunEnd("12", 0) == 2 by { RunEndsAt("12", 0, 2); }
    assert DigitsValue("12") == 12 by {
      assert "12"[..1] == "1";
      assert DigitsValue("1") == 1;
    }
  }

  /** Letters after a number are ignored: "12abc" is the reading 12. */
  lemma TrailingLettersExample()
    ensures ValidateReading("12abc") && ReadingValue("12abc") == 12.0
  {
    TwelveValue();
    assert "12" + "abc" == "12abc";
    NumeralWithTrailingTextAccepted("12", "abc");
  }

  lemma DecimalReadingExample()
    ensures ValidateReading("123.45")
  {
    var t := "123.45";
    assert t[3] == '.' && AllDigits(t[..3]) && AllDigits(t[4..]);
    assert t + [] == t;
    NumeralWithTrailingTextAccepted(t, []);
  }

  lemma ZeroReadingExample()
    ensures ValidateReading("0")
  {
    assert IsDecimalNumeral("0");
    assert "0" + [] == "0";
    NumeralWithTrailingTextAccepted("0", []);
  }

  lemma NegativeReadingExample()
    ensures !ValidateReading("-5")
  {
    assert "-" + "5" == "-5";
    NegativeReadingRejected("5");
  }

  lemma EmptyReadingExample()
    ensures !ValidateReading("")
  {
    NoDigitRejected("");
  }

  lemma WordReadingExample()
    ensures !ValidateReading("abc")
  {
    NoDigitRejected("abc");
  }

  lemma NaNReadingExample()
    ensures !ValidateReading("NaN")
  {
    NoDigitRejected("NaN");
  }

  lemma InfiniteReadingExample()
    ensures !ValidateReading("Infinity")
  {
    NoDigitRejected("Infinity");
  }

  lemma NegativeInfiniteReadingExample()
    ensures !ValidateReading("-Infinity")
  {
    NoDigitRejected("-Infinity");
  }

  // ---------------------------------------------------------------------------
  // calculateUsage

  const EndBeforeStart := "End reading must be greater than or equal to start reading"

  /**
   * `calculateUsage(start, end)`: throws when the end reading is below the start
   * reading, and otherwise returns the usage, which added to the start gives the end.
   */
  function CalculateUsage(start: real, end: real): (r: Result<real, string>)
    ensures r.Failure? <==> end < start
    ensures r.Failure? ==> r.error == EndBeforeStart
    ensures r.Success? ==> r.value >= 0.0 && start + r.value == end
  {
    if end < start then Failure(EndBeforeStart) else Success(end - start)
  }

  /** The usage between a reading and itself is zero. */
  lemma UsageOfSameReading(x: real)
    ensures CalculateUsage(x, x) == Success(0.0)
  {
  }

  /** Usage over two consecutive periods adds up to the usage over the whole. */
  lemma UsageAddsUp(a: real, b: real, c: real)
    requires CalculateUsage(a, b).Success? && CalculateUsage(b, c).Success?
    ensures CalculateUsage(a, c) == Success(CalculateUsage(a, b).value + CalculateUsage(b, c).value)
  {
  }
}
