# unitcounter meter-reading pipeline, in Dafny

This project models the core of unitcounter, a small web app for electricity
meters. It has four parts:

- A recognition function (a server-side edge function) takes the text recognized in a meter photo and returns the text and the first number in it.
- A reading slot takes a photo, waits for the browser-side recognizer, shows its result, or lets the user type a reading, and passes the reading to its owner. In this code the browser-side recognizer is a simulation that checks the file type and returns a random number; it does not call the recognition function.
- `validateReading` accepts a reading when ECMAScript `parseFloat` gives a finite, non-negative number.
- Two calculators check their two readings and then show either `end - start` (individual) or the two values as they are (shared).

Modules, one per source file:

- `JsText` (`js_text.dfy`): shared character and numeral vocabulary. It covers ASCII digits, word characters, digit runs and the exact value of a decimal numeral.
- `OcrProcess` (`ocr_process.dfy`): `extractNumberFromText` and the response body of `supabase/functions/ocr-process/index.ts`.
  - The regular expression `\b\d+(\.\d+)?\b` is modelled literally. The ECMAScript matcher tries each start position in turn, takes the longest digit run, then the optional fraction, and backtracks until a word boundary follows.
  - The model is proved equal to a declarative definition: the leftmost word-bounded decimal numeral, and the longest one at that position. When there is none, the function falls back to the first maximal digit run.
- `OcrUtils` (`ocr_utils.dfy`): `src/utils/ocrUtils.ts`.
  - The file-type gate of `processImageOCR`.
  - `parseFloat` as section 19.2.4 of ECMA-262 defines it. It skips StrWhiteSpaceChar, then reads a sign, `Infinity`, or digits with an optional point, fraction and exponent, and ignores the rest.
  - `validateReading` and `calculateUsage`.
- `MeterUpload` (`meter_image_uploader.dfy`): `MeterImageUploader` as a class.
  - It has the five state fields and a log of every string passed to the owner's `onReadingChange`.
  - The asynchronous `handleFileChange` is split into a start step and a completion step. The recognized text is a parameter of the completion step.
- `IndividualUsage` and `SharedUsage`: the two calculators.
  - Each is a pure `Calculate` decision plus a class whose `HandleCalculate` updates `error`, the result and `calculated` along the source's early returns.
- `ReadingPipeline` (`reading_pipeline.dfy`): the recognition function and `validateReading` side by side. Every number the recognition function extracts passes `validateReading`, and `parseFloat` gives back that numeral's own value. This is a property of the two functions, not a data flow in the code.

Three behaviours of the code worth knowing:

- Readings are never rewritten: a 5- or 6-digit number stays as it is, with no decimal point inserted.
- The shared calculator does no arithmetic. It does not subtract, split or warn; it shows the two parsed readings.
- A late recognition result is not discarded. Every completion applies, in whatever order it arrives.

## Model

| member | source | states |
|---|---|---|
| OcrProcess.ExtractNumberFromText | supabase/functions/ocr-process/index.ts:83-102 | returns nothing exactly when the text has no digit; otherwise a decimal numeral that occurs in the text |
| OcrProcess.ExtractNumberFromTextCorrect | supabase/functions/ocr-process/index.ts:85-98 | the result is the leftmost, longest word-bounded `\d+(\.\d+)?`; if there is none, the first maximal digit run; with no digit, null |
| OcrProcess.ExtractionIsUnique | supabase/functions/ocr-process/index.ts:85-98 | that description has exactly one answer per text, the function's |
| OcrProcess.LeftmostMatchWins | supabase/functions/ocr-process/index.ts:85-90 | any leftmost-longest word-bounded numeral is what `matches[0]` returns |
| OcrProcess.FirstDigitRunFallback | supabase/functions/ocr-process/index.ts:94-98 | with no word-bounded numeral, the first maximal digit run is returned |
| OcrProcess.MatchStartsWithDigit | supabase/functions/ocr-process/index.ts:85 | a word-bounded match begins with a digit |
| OcrProcess.DigitsOnlyUnchanged | supabase/functions/ocr-process/index.ts:85-90 | a text that is all digits comes back whole, with no 5- or 6-digit rewriting |
| OcrProcess.DigitOnlyExamples | supabase/functions/ocr-process/index.ts:85-90 | "123456" and "12345" are returned unchanged |
| OcrProcess.PointNumeralExample | supabase/functions/ocr-process/index.ts:85-90 | "123.45" is returned with its fraction |
| OcrProcess.LeftmostExample | supabase/functions/ocr-process/index.ts:85-90 | in "7 and 42" the first number, "7", wins |
| OcrProcess.FractionGluedToWordExample | supabase/functions/ocr-process/index.ts:85-90 | in "12.34abc" no boundary follows the fraction, so the engine backtracks to "12" |
| OcrProcess.FallbackExample | supabase/functions/ocr-process/index.ts:94-98 | "abc123" has no word-bounded number; the digit fallback gives "123" |
| OcrProcess.NoDigitsExample | supabase/functions/ocr-process/index.ts:101 | a text without digits yields null |
| OcrProcess.BuildResponse | supabase/functions/ocr-process/index.ts:52-58 | a missing text becomes "" and a null number becomes ""; the text is echoed; `numericValue` is empty exactly when the text has no digit, and otherwise is the extraction |
| OcrUtils.CheckImageFile | src/utils/ocrUtils.ts:16-17 | the only rejection is "Invalid file type. Please upload an image." |
| OcrUtils.CheckImageFileAccepts | src/utils/ocrUtils.ts:16-17 | a file passes exactly when its type starts with `image/`, case-sensitively |
| OcrUtils.CheckImageFileExamples | src/utils/ocrUtils.ts:16-17 | a missing file, `application/pdf`, `IMAGE/JPEG` and `image` are rejected; `image/jpeg` passes |
| OcrUtils.TrimStart | src/utils/ocrUtils.ts:47 | `parseFloat` drops exactly the leading StrWhiteSpaceChar characters |
| OcrUtils.ParseFloat | src/utils/ocrUtils.ts:47 | `parseFloat`: skip leading white space, then read the longest signed decimal literal or `Infinity` prefix, NaN when there is none; its behaviour is stated by the `Parse…` lemmas below |
| OcrUtils.ValidateReading | src/utils/ocrUtils.ts:46-49 | `validateReading`: not NaN, finite and at least zero; `ValidateReadingExactly` states what it accepts |
| OcrUtils.ValidateReadingExactly | src/utils/ocrUtils.ts:46-49 | a reading is valid if and only if `parseFloat` reads it as a finite number that is at least zero |
| OcrUtils.ParseSkipsLeadingWhiteSpace | src/utils/ocrUtils.ts:47 | white space in front of a reading does not change its parsed value |
| OcrUtils.ParseNumeralPrefix | src/utils/ocrUtils.ts:47 | a decimal numeral followed by text that cannot extend it parses to the numeral's exact value |
| OcrUtils.ParseExponent | src/utils/ocrUtils.ts:47 | a decimal numeral followed by `e` and digits parses to the numeral's value times ten to the power those digits denote (`ScaleBy`) |
| OcrUtils.ParseNegatedDigits | src/utils/ocrUtils.ts:47 | `-` before digits gives the negated value |
| OcrUtils.ParseInfinityPrefix | src/utils/ocrUtils.ts:47 | text starting with `Infinity` parses to +Infinity |
| OcrUtils.PointNumeralValue | src/utils/ocrUtils.ts:47 | a numeral with a point denotes its digits, point removed, over ten to the power of the fraction's length |
| OcrUtils.ReadingValue | src/utils/ocrUtils.ts:46-49 | a reading that passed validation parses to a finite number that is not negative |
| OcrUtils.NegativeParseRejected | src/utils/ocrUtils.ts:46-49 | any reading that `parseFloat` reads as a number below zero fails validation |
| OcrUtils.NegativeReadingRejected | src/utils/ocrUtils.ts:47-48 | a minus sign before a non-zero digit string parses to a negative number and so fails validation |
| OcrUtils.ValidReadingHasDigit | src/utils/ocrUtils.ts:46-49 | every valid reading contains a digit |
| OcrUtils.NoDigitRejected | src/utils/ocrUtils.ts:46-49 | text without a digit is never a valid reading, since it parses to NaN or an infinity |
| OcrUtils.NumeralWithTrailingTextAccepted | src/utils/ocrUtils.ts:46-49 | a decimal numeral followed by text that does not begin with a digit, a point or an exponent mark is valid and reads as its own value |
| OcrUtils.NumeralValueNonNegative | src/utils/ocrUtils.ts:48 | an unsigned numeral never denotes a negative number |
| OcrUtils.TrailingLettersExample | src/utils/ocrUtils.ts:46-49 | "12abc" is valid and reads as 12 |
| OcrUtils.DecimalReadingExample | src/utils/ocrUtils.ts:46-49 | "123.45" is valid |
| OcrUtils.ZeroReadingExample | src/utils/ocrUtils.ts:48 | "0" is valid: zero is accepted |
| OcrUtils.NegativeReadingExample | src/utils/ocrUtils.ts:48 | "-5" is rejected |
| OcrUtils.EmptyReadingExample | src/utils/ocrUtils.ts:48 | "" is rejected (NaN) |
| OcrUtils.WordReadingExample | src/utils/ocrUtils.ts:48 | "abc" is rejected (NaN) |
| OcrUtils.NaNReadingExample | src/utils/ocrUtils.ts:48 | "NaN" is rejected |
| OcrUtils.InfiniteReadingExample | src/utils/ocrUtils.ts:48 | "Infinity" is rejected by the finiteness test |
| OcrUtils.NegativeInfiniteReadingExample | src/utils/ocrUtils.ts:48 | "-Infinity" is rejected |
| OcrUtils.CalculateUsage | src/utils/ocrUtils.ts:57-62 | fails exactly when end < start, with the source's message; otherwise the usage is non-negative and start + usage = end |
| OcrUtils.UsageOfSameReading | src/utils/ocrUtils.ts:57-62 | equal readings give zero usage |
| OcrUtils.UsageAddsUp | src/utils/ocrUtils.ts:57-62 | usages over consecutive periods add up to the usage over the whole period |
| ReadingPipeline.ExtractedNumberIsValidReading | supabase/functions/ocr-process/index.ts:83-102 | an extracted number passes `validateReading`, and `parseFloat` reads it as its own decimal value |
| ReadingPipeline.ResponseNumberIsValidReading | supabase/functions/ocr-process/index.ts:52-58 | a non-empty `numericValue` in the response is a valid reading |
| MeterUpload.MeterImageUploader.constructor | src/components/MeterImageUploader.tsx:16-20 | every field starts empty or false, and the owner has been sent nothing |
| MeterUpload.MeterImageUploader.BeginFileChange | src/components/MeterImageUploader.tsx:22-29 | no file changes nothing; otherwise file and preview are set, the error is cleared, processing starts, and the reading and the owner log are untouched |
| MeterUpload.MeterImageUploader.OcrSucceeded | src/components/MeterImageUploader.tsx:32-35 | the result becomes the reading and is sent to the owner unvalidated; processing ends |
| MeterUpload.MeterImageUploader.OcrFailed | src/components/MeterImageUploader.tsx:36-39 | the error is the thrown message, or "Error processing image"; processing ends; the reading is kept and nothing is sent |
| MeterUpload.MeterImageUploader.CompleteRecognition | src/utils/ocrUtils.ts:11-28 | a file of the wrong type ends in the invalid-type error with nothing sent; otherwise the recognized text is the reading and is sent |
| MeterUpload.MeterImageUploader.HandleReadingChange | src/components/MeterImageUploader.tsx:42-52 | the typed text is always the reading; a valid one is sent and clears the error; an invalid one sets "Please enter a valid positive number" and is not sent; every typed value ever sent is valid |
| IndividualUsage.Calculate | src/components/IndividualUsageCalculator.tsx:17-41 | missing-readings error exactly when one is empty, so it takes precedence; then the invalid-readings error exactly when either fails validation; a usage exactly when both are valid and in order, with start + usage = end; `calculateUsage`'s message otherwise |
| IndividualUsage.CalculateEnabled | src/components/IndividualUsageCalculator.tsx:81 | the button is enabled exactly when pressing it cannot report a missing reading |
| IndividualUsage.CalculateOnNumerals | src/components/IndividualUsageCalculator.tsx:31-37 | two ordered decimal numerals, even with trailing text, give the difference of their values |
| IndividualUsage.CalculateOnDecreasingNumerals | src/components/IndividualUsageCalculator.tsx:34-40 | a decreasing pair shows "End reading must be greater than or equal to start reading" |
| IndividualUsage.IndividualUsageCalculator.constructor | src/components/IndividualUsageCalculator.tsx:11-15 | empty readings, no usage, no error, nothing shown |
| IndividualUsage.IndividualUsageCalculator.SetStartReading | src/components/IndividualUsageCalculator.tsx:49-52 | the start slot's callback replaces the start reading only |
| IndividualUsage.IndividualUsageCalculator.SetEndReading | src/components/IndividualUsageCalculator.tsx:54-57 | the end slot's callback replaces the end reading only |
| IndividualUsage.IndividualUsageCalculator.HandleCalculate | src/components/IndividualUsageCalculator.tsx:17-41 | on success the usage is stored and shown with no error; on any failure the error is set, nothing is shown, and the old usage stays |
| IndividualUsage.IndividualUsageCalculator.ShownUsage | src/components/IndividualUsageCalculator.tsx:67 | a result is displayed exactly when `calculated`, and it is what some successful press computed; a failed press hides it. A later change of a reading leaves `calculated` and `usage` as they were (see `SetStartReading`), so the shown usage can belong to the previous readings |
| SharedUsage.Calculate | src/components/SharedUsageCalculator.tsx:22-44 | missing-readings error exactly when one is empty; a result exactly when both are non-empty and valid, holding the two parsed values, each non-negative |
| SharedUsage.CalculateEnabled | src/components/SharedUsageCalculator.tsx:87 | the button is enabled exactly when pressing it cannot report a missing reading |
| SharedUsage.CalculateIgnoresOrder | src/components/SharedUsageCalculator.tsx:36-43 | there is no ordering check: swapping the readings still succeeds and swaps the two values |
| SharedUsage.CalculateOnNumerals | src/components/SharedUsageCalculator.tsx:36-43 | two decimal numerals are shown with their own values, whichever is larger |
| SharedUsage.SharedUsageCalculator.constructor | src/components/SharedUsageCalculator.tsx:13-20 | empty readings, no result, no error, nothing shown |
| SharedUsage.SharedUsageCalculator.SetYourMeterReading | src/components/SharedUsageCalculator.tsx:52-55 | your slot's callback replaces your reading only |
| SharedUsage.SharedUsageCalculator.SetSharedMeterReading | src/components/SharedUsageCalculator.tsx:57-60 | the shared slot's callback replaces the shared reading only |
| SharedUsage.SharedUsageCalculator.HandleCalculate | src/components/SharedUsageCalculator.tsx:22-44 | on success the parsed pair is stored and shown; on either error the message is set, nothing is shown, and the previous result stays |
| SharedUsage.SharedUsageCalculator.ShownResult | src/components/SharedUsageCalculator.tsx:70 | the result panel appears exactly when `calculated`, holding what some successful press computed; a failed press hides it, but a later change of a reading does not |

## Left out

- Floating point: numbers are exact reals. Rounding of long decimals, overflow to Infinity (so "1e400" counts as a valid reading here), underflow to zero (JavaScript reads "-1e-400" as -0, which passes the `>= 0` test, while here it is a negative number and rejected), negative zero and `toFixed(2)` display formatting are not modelled.
- OcrUtils.CalculateUsage: takes two reals rather than any JavaScript number, so NaN arguments (where `end < start` is false and the result is NaN) are not covered. Its callers pass only validated readings.
- IndividualUsage.Calculate: the "Calculation error" fallback for a thrown non-`Error` value is not modelled, since `calculateUsage` only throws `Error` objects.
- The simulated recognizer's random reading and its 1.5-second delay are randomness and time. The recognized text is a parameter of `CompleteRecognition`.
- MeterUpload.MeterImageUploader.BeginFileChange: the preview URL from `URL.createObjectURL` is a browser call and is a parameter. Object URLs are never released.
- MeterUpload.MeterImageUploader.HandleReadingChange: can be called while recognition is running, although the input field is disabled then. The model keeps the handler's own behaviour rather than the rendering guard.
- Asynchrony: completions are separate steps that may follow any start, in any order. Nothing matches a completion to the selection that started it, just as in the source.
- The recognition backend call, `serve`, CORS headers, the HTTP 500 error body and logging are network I/O and are not modelled. Only the body built from the backend's text is modelled.
- PWA, service worker, status badges, routing and page layout are outside the meter-reading core.
- Features the code does not have are not modelled: 5/6-digit decimal normalisation, a shared total/others split and its warnings, personal-usage carry-over, retry and status states, and discarding stale recognition results.
