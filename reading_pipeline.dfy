/**
 * The recognition function's number against the client's validation: whatever
 * `extractNumberFromText` returns is a reading that `validateReading` accepts,
 * and `parseFloat` reads back exactly the value of the extracted numeral. No
 * client code in this model calls the recognition function; the reading slot
 * takes its recognized text from the simulated recognizer instead, so this is
 * a property of the two functions side by side, not of a data flow.
 */
module ReadingPipeline {
  import opened Wrappers
  import opened JsText
  import opened OcrUtils
  import opened OcrProcess

  /** An extracted number passes validation and parses to its own decimal value. */
  lemma ExtractedNumberIsValidReading(text: string)
    requires HasDigit(text)
    ensures ExtractNumberFromText(text).Some?
    ensures ValidateReading(ExtractNumberFromText(text).value)
    ensures ReadingValue(ExtractNumberFromText(text).value) == NumeralValue(ExtractNumberFromText(text).value)
  {
    var r := ExtractNumberFromText(text).value;
    NumeralWithTrailingTextAccepted(r, []);
    assert r + [] == r;
  }

  /** A non-empty `numericValue` in the recognition response is a valid reading. */
  lemma ResponseNumberIsValidReading(detectedText: Option<string>)
    requires BuildResponse(detectedText).numericValue != ""
    ensures ValidateReading(BuildResponse(detectedText).numericValue)
  {
    var response := BuildResponse(detectedText);
    ExtractedNumberIsValidReading(response.text);
  }
}
