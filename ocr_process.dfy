/**
 * The number extractor of the OCR edge function (supabase/functions/ocr-process/index.ts).
 *
 * `extractNumberFromText` runs two global regular-expression matches and takes the
 * first match of each: first `\b\d+(\.\d+)?\b`, then `\d+`. The first pattern is
 * modelled by the backtracking order ECMAScript prescribes for it (section 22.2.2 of
 * ECMA-262): at each start position the greedy `\d+` is tried longest first, the
 * greedy optional group is tried present before absent, and the closing `\b` decides.
 * The lemmas relate that procedure to a declarative statement: the result is the
 * leftmost match, and at that position the longest one.
 */
module OcrProcess {
  import opened Wrappers
  import opened JsText

  /** ECMAScript's IsWordChar at position p: positions outside the text are not word characters. */
  predicate IsWordAt(s: string, p: int) {
    0 <= p < |s| && IsWordChar(s[p])
  }

  /** The assertion `\b` holds at position k. */
  predicate IsBoundary(s: string, k: int) {
    IsWordAt(s, k - 1) != IsWordAt(s, k)
  }

  /** s[i..k] is a match of `\b\d+(\.\d+)?\b`. */
  predicate IsMeterMatch(s: string, i: int, k: int) {
    0 <= i < k <= |s| && IsBoundary(s, i) && IsBoundary(s, k) && IsDecimalNumeral(s[i..k])
  }

  ghost predicate NoMeterMatch(s: string) {
    forall i, k :: !IsMeterMatch(s, i, k)
  }

  /** The match ECMAScript reports first: leftmost start, and longest at that start. */
  ghost predicate IsLeftmostLongestMatch(s: string, i: int, k: int) {
    && IsMeterMatch(s, i, k)
    && (forall i', k' :: 0 <= i' < i ==> !IsMeterMatch(s, i', k'))
    && (forall k' :: IsMeterMatch(s, i, k') ==> k' <= k)
  }

  /** s[i..k] is the first maximal run of digits in s. */
  predicate IsFirstDigitRun(s: string, i: int, k: int) {
    && 0 <= i < k <= |s|
    && IsDigit(s[i])
    && (forall p :: 0 <= p < i ==> !IsDigit(s[p]))
    && (forall p :: i <= p < k ==> IsDigit(s[p]))
    && (k == |s| || !IsDigit(s[k]))
  }

  // ---------------------------------------------------------------------------
  // The backtracking matcher for `\b\d+(\.\d+)?\b`

  /**
   * The fraction digits s[dot+1..k] are given back one at a time until `\b` holds
   * after them; at least one fraction digit must remain.
   */
  function BacktrackFraction(s: string, dot: nat, k: nat): (r: Option<nat>)
    requires dot < k <= |s|
    ensures r.Some? ==> dot + 2 <= r.value <= k && IsBoundary(s, r.value)
    ensures forall k' :: (if r.Some? then r.value else dot + 1) < k' <= k ==> !IsBoundary(s, k')
    decreases k
  {
    if k < dot + 2 then None
    else if IsBoundary(s, k) then Some(k)
    else BacktrackFraction(s, dot, k - 1)
  }

  /**
   * With the integer digits s[i..j] taken by `\d+`: try the group `(\.\d+)` (greedy),
   * then the group left out, then one integer digit fewer.
   */
  function BacktrackInteger(s: string, i: nat, j: nat): Option<nat>
    requires i < j <= |s|
    decreases j
  {
    var fraction := if j < |s| && s[j] == '.' then BacktrackFraction(s, j, DigitRunEnd(s, j + 1)) else None;
    if fraction.Some? then fraction
    else if IsBoundary(s, j) then Some(j)
    else if j - 1 > i then BacktrackInteger(s, i, j - 1)
    else None
  }

  /** The end of the match of `\b\d+(\.\d+)?\b` that starts at position i, if there is one. */
  function MatchAt(s: string, i: nat): Option<nat>
    requires i <= |s|
  {
    if !IsBoundary(s, i) then None
    else
      var j := DigitRunEnd(s, i);
      if j == i then None else BacktrackInteger(s, i, j)
  }

  /** The global match's first element: try each start position from i on. */
  function LeftmostMatchFrom(s: string, i: nat): Option<(nat, nat)>
    requires i <= |s|
    decreases |s| - i
  {
    match MatchAt(s, i)
    case Some(k) => Some((i, k))
    case None => if i == |s| then None else LeftmostMatchFrom(s, i + 1)
  }

  /** The first element of the global match of `\d+` from position i on. */
  function FirstDigitRunFrom(s: string, i: nat): (r: Option<(nat, nat)>)
    requires i <= |s|
    ensures r.Some? ==> i <= r.value.0 < r.value.1 <= |s| && r.value.1 == DigitRunEnd(s, r.value.0)
    ensures r.Some? ==> forall p :: i <= p < r.value.0 ==> !IsDigit(s[p])
    ensures r.None? <==> forall p :: i <= p < |s| ==> !IsDigit(s[p])
    decreases |s| - i
  {
    if i == |s| then None
    else if IsDigit(s[i]) then Some((i, DigitRunEnd(s, i)))
    else FirstDigitRunFrom(s, i + 1)
  }

  /** The span of text that `extractNumberFromText` returns, if any. */
  function ExtractSpan(text: string): Option<(nat, nat)> {
    match LeftmostMatchFrom(text, 0)
    case Some(m) => Some(m)
    case None => FirstDigitRunFrom(text, 0)
  }

  /**
   * `extractNumberFromText`: the first word-bounded decimal number, else the first
   * run of digits, else null. The result is absent exactly when the text has no
   * digit; when present it is a `\d+(\.\d+)?` numeral cut out of the text.
   */
  function ExtractNumberFromText(text: string): (r: Option<string>)
    ensures r.None? <==> !HasDigit(text)
    ensures r.Some? ==> IsDecimalNumeral(r.value) && IsSubstring(r.value, text)
  {
    ExtractionMeetsSpec(text);
    match ExtractSpan(text)
    case Some((i, k)) =>
      SliceIsSubstring(text, i, k);
      Some(text[i..k])
    case None => None
  }

  // ---------------------------------------------------------------------------
  // What the matcher computes

  /** The numerals that start at i end inside the leading digit run, or inside the fraction after it. */
  lemma NumeralShape(s: string, i: nat, k: nat)
    requires i < k <= |s|
    ensures var j := DigitRunEnd(s, i);
      IsDecimalNumeral(s[i..k]) <==>
        i < j && (k <= j || (j < |s| && s[j] == '.' && j + 2 <= k <= DigitRunEnd(s, j + 1)))
  {
    var j := DigitRunEnd(s, i);
    if IsDecimalNumeral(s[i..k]) {
      NumeralEndsInRun(s, i, k);
    }
    if i < j && k <= j {
      DigitsSlice(s, i, k);
    } else if i < j && j < |s| && s[j] == '.' && j + 2 <= k <= DigitRunEnd(s, j + 1) {
      PointNumeralSlice(s, i, j, k);
    }
  }

  lemma NumeralEndsInRun(s: string, i: nat, k: nat)
    requires i < k <= |s| && IsDecimalNumeral(s[i..k])
    ensures var j := DigitRunEnd(s, i);
      i < j && (k <= j || (j < |s| && s[j] == '.' && j + 2 <= k <= DigitRunEnd(s, j + 1)))
  {
    var t := s[i..k];
    if |t| > 0 && AllDigits(t) {
      DigitSliceWithinRun(s, i, k);
    } else {
      var p :| 0 < p < |t| - 1 && t[p] == '.' && AllDigits(t[..p]) && AllDigits(t[p + 1..]);
      PointNumeralEndsInRun(s, i, k, p);
    }
  }

  lemma PointNumeralEndsInRun(s: string, i: nat, k: nat, p: nat)
    requires i < k <= |s|
    requires 0 < p < k - i - 1 && s[i..k][p] == '.' && AllDigits(s[i..k][..p]) && AllDigits(s[i..k][p + 1..])
    ensures DigitRunEnd(s, i) == i + p
    ensures i + p < |s| && s[i + p] == '.'
    ensures DigitRunEnd(s, i + p + 1) >= k
  {
    var t := s[i..k];
    forall q | i <= q < i + p ensures IsDigit(s[q]) { assert t[..p][q - i] == s[q]; }
    forall q | i + p + 1 <= q < k ensures IsDigit(s[q]) { assert t[p + 1..][q - i - p - 1] == s[q]; }
    assert s[i + p] == t[p];
    RunReaches(s, i, i + p);
    RunReaches(s, i + p + 1, k);
  }

  /** A digit run that covers s[a..b] does not end before b. */
  lemma {:induction false} RunReaches(s: string, a: nat, b: nat)
    requires a <= b <= |s|
    requires forall q :: a <= q < b ==> IsDigit(s[q])
    ensures DigitRunEnd(s, a) >= b
    decreases b - a
  {
    if a < b {
      RunReaches(s, a + 1, b);
    }
  }

  lemma DigitsSlice(s: string, a: nat, b: nat)
    requires a <= b <= |s|
    requires forall q :: a <= q < b ==> IsDigit(s[q])
    ensures AllDigits(s[a..b])
  {
    forall q | 0 <= q < b - a ensures IsDigit(s[a..b][q]) { assert s[a..b][q] == s[a + q]; }
  }

  lemma PointNumeralSlice(s: string, i: nat, j: nat, k: nat)
    requires i < j < |s| && j == DigitRunEnd(s, i) && s[j] == '.' && j + 2 <= k <= DigitRunEnd(s, j + 1)
    ensures IsDecimalNumeral(s[i..k])
  {
    var t := s[i..k];
    var p := j - i;
    DigitsSlice(s, i, j);
    DigitsSlice(s, j + 1, k);
    assert t[..p] == s[i..j];
    assert t[p + 1..] == s[j + 1..k];
    assert t[p] == '.';
  }

  lemma DigitSliceWithinRun(s: string, i: nat, k: nat)
    requires i < k <= |s| && AllDigits(s[i..k])
    ensures i < k <= DigitRunEnd(s, i)
  {
    forall q | i <= q < k ensures IsDigit(s[q]) { assert s[i..k][q - i] == s[q]; }
    RunReaches(s, i, k);
  }

  /** Below the full integer run no shorter integer part can end at a boundary. */
  lemma {:induction false} BacktrackIntegerShort(s: string, i: nat, j: nat)
    requires i < j <= |s| && j < DigitRunEnd(s, i)
    ensures BacktrackInteger(s, i, j) == None
    decreases j
  {
    assert IsDigit(s[j]) && IsDigit(s[j - 1]);
    if j - 1 > i {
      BacktrackIntegerShort(s, i, j - 1);
    }
  }

  /** MatchAt finds the longest match at i, and finds one whenever one exists. */
  lemma MatchAtSpec(s: string, i: nat)
    requires i <= |s|
    ensures MatchAt(s, i).Some? ==> IsMeterMatch(s, i, MatchAt(s, i).value)
    ensures MatchAt(s, i).Some? ==> forall k :: IsMeterMatch(s, i, k) ==> k <= MatchAt(s, i).value
    ensures MatchAt(s, i).None? ==> forall k :: !IsMeterMatch(s, i, k)
  {
    var j := DigitRunEnd(s, i);
    forall k | i < k <= |s|
      ensures IsDecimalNumeral(s[i..k]) <==>
        i < j && (k <= j || (j < |s| && s[j] == '.' && j + 2 <= k <= DigitRunEnd(s, j + 1)))
    {
      NumeralShape(s, i, k);
    }
    if IsBoundary(s, i) && j > i {
      // no boundary strictly inside the integer digits
      assert forall k :: i < k < j ==> !IsBoundary(s, k) by {
        forall k | i < k < j ensures !IsBoundary(s, k) { assert IsDigit(s[k - 1]) && IsDigit(s[k]); }
      }
      var hasPoint := j < |s| && s[j] == '.';
      var fraction := if hasPoint then BacktrackFraction(s, j, DigitRunEnd(s, j + 1)) else None;
      if fraction.None? && !IsBoundary(s, j) && j - 1 > i {
        BacktrackIntegerShort(s, i, j - 1);
      }
    }
  }

  /** LeftmostMatchFrom returns the leftmost-longest match at or after i. */
  lemma {:induction false} LeftmostMatchSpec(s: string, i: nat)
    requires i <= |s|
    ensures var r := LeftmostMatchFrom(s, i);
      && (r.Some? ==> i <= r.value.0 && IsMeterMatch(s, r.value.0, r.value.1))
      && (r.Some? ==> forall k :: IsMeterMatch(s, r.value.0, k) ==> k <= r.value.1)
      && (r.Some? ==> forall a, k :: i <= a < r.value.0 ==> !IsMeterMatch(s, a, k))
      && (r.None? ==> forall a, k :: i <= a ==> !IsMeterMatch(s, a, k))
    decreases |s| - i
  {
    MatchAtSpec(s, i);
    if MatchAt(s, i).None? && i < |s| {
      LeftmostMatchSpec(s, i + 1);
    }
  }

  /**
   * `extractNumberFromText` as a declarative statement: the leftmost-longest
   * word-bounded numeral if there is one; otherwise the first maximal digit run;
   * null only when the text has no digit.
   */
  ghost predicate IsExtractionOf(text: string, r: Option<string>) {
    match r
    case None => !HasDigit(text)
    case Some(v) =>
      exists i, k ::
        && 0 <= i < k <= |text|
        && v == text[i..k]
        && (IsLeftmostLongestMatch(text, i, k) || (NoMeterMatch(text) && IsFirstDigitRun(text, i, k)))
  }

  lemma ExtractionMeetsSpec(text: string)
    ensures ExtractSpan(text).Some? ==>
      var (i, k) := ExtractSpan(text).value;
      0 <= i < k <= |text| &&
      (IsLeftmostLongestMatch(text, i, k) || (NoMeterMatch(text) && IsFirstDigitRun(text, i, k)))
    ensures ExtractSpan(text).None? <==> !HasDigit(text)
  {
    LeftmostMatchSpec(text, 0);
    var m := LeftmostMatchFrom(text, 0);
    if m.Some? {
      var (i, k) := m.value;
      NumeralShape(text, i, k);
      assert IsDigit(text[i]);
    } else if FirstDigitRunFrom(text, 0).None? {
      assert !HasDigit(text);
    }
  }

  /** The extractor meets its declarative statement. */
  lemma ExtractNumberFromTextCorrect(text: string)
    ensures IsExtractionOf(text, ExtractNumberFromText(text))
  {
    ExtractionMeetsSpec(text);
    if ExtractSpan(text).Some? {
      var (i, k) := ExtractSpan(text).value;
      assert ExtractNumberFromText(text) == Some(text[i..k]);
    }
  }

  /** The declarative statement admits one result only: extraction is deterministic. */
  lemma ExtractionIsUnique(text: string, r: Option<string>)
    requires IsExtractionOf(text, r)
    ensures r == ExtractNumberFromText(text)
  {
    ExtractionMeetsSpec(text);
    if r.Some? {
      var i, k :| && 0 <= i < k <= |text| && r.value == text[i..k]
        && (IsLeftmostLongestMatch(text, i, k) || (NoMeterMatch(text) && IsFirstDigitRun(text, i, k)));
      assert HasDigit(text) by { SpanHasDigit(text, i, k); }
      var (i0, k0) := ExtractSpan(text).value;
      SameSpan(text, i, k, i0, k0);
    }
  }

  lemma SpanHasDigit(text: string, i: int, k: int)
    requires IsLeftmostLongestMatch(text, i, k) || (NoMeterMatch(text) && IsFirstDigitRun(text, i, k))
    ensures HasDigit(text)
  {
    if IsLeftmostLongestMatch(text, i, k) {
      NumeralShape(text, i, k);
    }
    assert IsDigit(text[i]);
  }

  /** Two spans that both meet the declarative statement are the same span. */
  lemma SameSpan(text: string, i: int, k: int, i0: int, k0: int)
    requires IsLeftmostLongestMatch(text, i, k) || (NoMeterMatch(text) && IsFirstDigitRun(text, i, k))
    requires IsLeftmostLongestMatch(text, i0, k0) || (NoMeterMatch(text) && IsFirstDigitRun(text, i0, k0))
    ensures i == i0 && k == k0
  {
    if IsLeftmostLongestMatch(text, i, k) {
      assert IsMeterMatch(text, i, k);
      LeftmostLongestUnique(text, i, k, i0, k0);
    } else {
      FirstDigitRunUnique(text, i, k, i0, k0);
    }
  }

  lemma LeftmostLongestUnique(text: string, i: int, k: int, i0: int, k0: int)
    requires IsLeftmostLongestMatch(text, i, k) && IsLeftmostLongestMatch(text, i0, k0)
    ensures i == i0 && k == k0
  {
  }

  lemma FirstDigitRunUnique(text: string, i: int, k: int, i0: int, k0: int)
    requires IsFirstDigitRun(text, i, k) && IsFirstDigitRun(text, i0, k0)
    ensures i == i0 && k == k0
  {
  }

  // ---------------------------------------------------------------------------
  // Substrings

  /** r occurs as a contiguous piece of t. */
  predicate IsSubstring(r: string, t: string)
    decreases |t|
  {
    r <= t || (t != [] && IsSubstring(r, t[1..]))
  }

  lemma {:induction false} SliceIsSubstring(t: string, i: nat, k: nat)
    requires i <= k <= |t|
    ensures IsSubstring(t[i..k], t)
    decreases i
  {
    if i == 0 {
      assert t[i..k] <= t;
    } else {
      var u := t[1..];
      assert forall q :: 0 <= q < k - i ==> u[i - 1..k - 1][q] == t[i..k][q];
      assert u[i - 1..k - 1] == t[i..k];
      SliceIsSubstring(u, i - 1, k - 1);
    }
  }

  // ---------------------------------------------------------------------------
  // Consequences

  /** Digit-only text comes back unchanged: no decimal point is inserted, whatever the length. */
  lemma DigitsOnlyUnchanged(text: string)
    requires |text| > 0 && AllDigits(text)
    ensures ExtractNumberFromText(text) == Some(text)
  {
    assert IsBoundary(text, 0) && IsBoundary(text, |text|);
    assert text[0..|text|] == text;
    assert IsMeterMatch(text, 0, |text|);
    ExtractNumberFromTextCorrect(text);
    assert !NoMeterMatch(text);
    var i, k :| 0 <= i < k <= |text| && ExtractNumberFromText(text).value == text[i..k]
      && IsLeftmostLongestMatch(text, i, k);
  }

  /** Digit-only meter displays of five and six digits are returned as they are. */
  lemma DigitOnlyExamples()
    ensures ExtractNumberFromText("123456") == Some("123456")
    ensures ExtractNumberFromText("12345") == Some("12345")
  {
    DigitsOnlyUnchanged("123456");
    DigitsOnlyUnchanged("12345");
  }

  /** Whenever a word-bounded numeral exists, the leftmost (and at its start the longest) is returned. */
  lemma LeftmostMatchWins(text: string, i: nat, k: nat)
    requires IsLeftmostLongestMatch(text, i, k)
    ensures ExtractNumberFromText(text) == Some(text[i..k])
  {
    ExtractionIsUnique(text, Some(text[i..k]));
  }

  /** With no word-bounded numeral, the first maximal digit run is returned. */
  lemma FirstDigitRunFallback(text: string, i: nat, k: nat)
    requires NoMeterMatch(text) && IsFirstDigitRun(text, i, k)
    ensures ExtractNumberFromText(text) == Some(text[i..k])
  {
    ExtractionIsUnique(text, Some(text[i..k]));
  }

  /** A word-bounded numeral starts with a digit. */
  lemma MatchStartsWithDigit(s: string, i: nat, k: nat)
    requires IsMeterMatch(s, i, k)
    ensures IsDigit(s[i])
  {
    NumeralShape(s, i, k);
  }

  /** A numeral with a point is returned whole. */
  lemma PointNumeralExample()
    ensures ExtractNumberFromText("123.45") == Some("123.45")
  {
    var t := "123.45";
    assert t[0..6] == t;
    assert IsDecimalNumeral(t) by {
      assert t[3] == '.' && AllDigits(t[..3]) && AllDigits(t[4..]);
    }
    LeftmostMatchWins(t, 0, 6);
  }

  /** With several numbers the leftmost wins. */
  lemma LeftmostExample()
    ensures ExtractNumberFromText("7 and 42") == Some("7")
  {
    var t := "7 and 42";
    assert t[0..1] == "7";
    assert IsMeterMatch(t, 0, 1);
    forall k | IsMeterMatch(t, 0, k) ensures k <= 1 {
      NumeralShape(t, 0, k);
    }
    LeftmostMatchWins(t, 0, 1);
  }

  /** A fraction glued to a word is not word-bounded, so the integer part before the point is taken. */
  lemma FractionGluedToWordExample()
    ensures ExtractNumberFromText("12.34abc") == Some("12")
  {
    var t := "12.34abc";
    assert t[0..2] == "12";
    assert IsMeterMatch(t, 0, 2);
    forall k | IsMeterMatch(t, 0, k) ensures k <= 2 {
      NumeralShape(t, 0, k);
      assert DigitRunEnd(t, 0) == 2 && DigitRunEnd(t, 3) == 5;
    }
    LeftmostMatchWins(t, 0, 2);
  }

  /** Digits glued to a word are found by the second pass. */
  lemma FallbackExample()
    ensures ExtractNumberFromText("abc123") == Some("123")
  {
    var t := "abc123";
    forall i, k | IsMeterMatch(t, i, k) ensures false {
      MatchStartsWithDigit(t, i, k);
    }
    assert t[3..6] == "123";
    FirstDigitRunFallback(t, 3, 6);
  }

  /** Text without digits gives null. */
  lemma NoDigitsExample()
    ensures ExtractNumberFromText("no digits here") == None
  {
  }

  // ---------------------------------------------------------------------------
  // The response body

  /** The JSON body of a successful response: `{ text, numericValue }`. */
  datatype OcrResponse = OcrResponse(text: string, numericValue: string)

  /**
   * The body built from the recognition backend's `text` field: a missing text
   * becomes `''` (`data.text || ''`), and a null extraction becomes `''`
   * (`numericValue || ''`; an extracted numeral is never empty).
   */
  function BuildResponse(detectedText: Option<string>): (r: OcrResponse)
    ensures detectedText.None? ==> r == OcrResponse("", "")
    ensures detectedText.Some? ==> r.text == detectedText.value
    ensures r.numericValue == "" <==> !HasDigit(r.text)
    ensures r.numericValue != "" ==> ExtractNumberFromText(r.text) == Some(r.numericValue)
  {
    var text := if detectedText.Some? && detectedText.value != "" then detectedText.value else "";
    var numericValue := ExtractNumberFromText(text);
    OcrResponse(text, if numericValue.Some? && numericValue.value != "" then numericValue.value else "")
  }
}
