/**
 * The individual calculator of src/components/IndividualUsageCalculator.tsx: two
 * reading strings filled in by the owner callbacks of two reading slots, and the
 * Calculate button, which checks the readings and shows `end - start`.
 */
module IndividualUsage {
  import opened Wrappers
  import opened JsText
  import opened OcrUtils

  const MissingReadings := "Please provide both start and end readings"
  const InvalidReadings := "Please enter valid positive numbers for both readings"

  /** What one press of Calculate decides: an error message, or the usage. */
  datatype Outcome = Failed(message: string) | Computed(usage: real)

  /**
   * The decision of `handleCalculate`: a missing reading first, then an invalid
   * one, then `calculateUsage` on the parsed values, whose thrown message is shown.
   */
  function Calculate(startReading: string, endReading: string): (o: Outcome)
    ensures (o.Failed? && o.message == MissingReadings) <==> startReading == "" || endReading == ""
    ensures (o.Failed? && o.message == InvalidReadings) <==>
      startReading != "" && endReading != ""
      && !(ValidateReading(startReading) && ValidateReading(endReading))
    ensures o.Computed? <==>
      startReading != "" && endReading != ""
      && ValidateReading(startReading) && ValidateReading(endReading)
      && ReadingValue(startReading) <= ReadingValue(endReading)
    ensures o.Computed? ==> o.usage >= 0.0 && ReadingValue(startReading) + o.usage == ReadingValue(endReading)
    ensures o.Failed? ==> o.message in {MissingReadings, InvalidReadings, EndBeforeStart}
  {
    if startReading == "" || endReading == "" then Failed(MissingReadings)
    else if !ValidateReading(startReading) || !ValidateReading(endReading) then Failed(InvalidReadings)
    else
      match CalculateUsage(ReadingValue(startReading), ReadingValue(endReading))
      case Success(usage) => Computed(usage)
      case Failure(message) => Failed(message)
  }

  /** The button is enabled exactly when pressing it cannot report a missing reading. */
  function CalculateEnabled(startReading: string, endReading: string): (enabled: bool)
    ensures enabled <==> Calculate(startReading, endReading) != Failed(MissingReadings)
  {
    !(startReading == "" || endReading == "")
  }

  /** Two decimal numerals in order, even with trailing text, yield the difference of their values. */
  lemma CalculateOnNumerals(start: string, startRest: string, end: string, endRest: string)
    requires IsDecimalNumeral(start) && IsDecimalNumeral(end)
    requires startRest == [] || !ContinuesNumeral(startRest[0])
    requires endRest == [] || !ContinuesNumeral(endRest[0])
    requires NumeralValue(start) <= NumeralValue(end)
    ensures Calculate(start + startRest, end + endRest) == Computed(NumeralValue(end) - NumeralValue(start))
  {
    var startText, endText := start + startRest, end + endRest;
    NumeralWithTrailingTextAccepted(start, startRest);
    NumeralWithTrailingTextAccepted(end, endRest);
    assert |startText| >= |start| > 0 && |endText| >= |end| > 0;
    var o := Calculate(startText, endText);
    assert o.Computed?;
    assert o.usage == NumeralValue(end) - NumeralValue(start);
  }

  /** Readings that parse in the wrong order report `calculateUsage`'s message. */
  lemma CalculateOnDecreasingNumerals(start: string, end: string)
    requires IsDecimalNumeral(start) && IsDecimalNumeral(end)
    requires NumeralValue(end) < NumeralValue(start)
    ensures Calculate(start, end) == Failed(EndBeforeStart)
  {
    NumeralWithTrailingTextAccepted(start, []);
    NumeralWithTrailingTextAccepted(end, []);
    assert start + [] == start && end + [] == end;
  }

  class IndividualUsageCalculator {
    var startReading: string
    var endReading: string
    var usage: Option<real>
    var error: string
    var calculated: bool
    /** The readings of the press that last stored a usage. */
    ghost var usageStart: string
    ghost var usageEnd: string

    /** A stored usage is what Calculate computed for some pair of readings; a shown result has no error beside it. */
    ghost predicate Valid()
      reads this
    {
      (usage.Some? ==> Calculate(usageStart, usageEnd) == Computed(usage.value))
      && (calculated ==> usage.Some? && error == "")
    }

    constructor()
      ensures Valid()
      ensures startReading == "" && endReading == "" && usage == None && error == "" && !calculated
    {
      startReading := "";
      endReading := "";
      usage := None;
      error := "";
      calculated := false;
      usageStart := "";
      usageEnd := "";
    }

    /** The start slot's owner callback: the reading is replaced and nothing else changes. */
    method SetStartReading(value: string)
      requires Valid()
      modifies this
      ensures Valid()
      ensures startReading == value && endReading == old(endReading)
      ensures usage == old(usage) && error == old(error) && calculated == old(calculated)
    {
      startReading := value;
    }

    /** The end slot's owner callback. */
    method SetEndReading(value: string)
      requires Valid()
      modifies this
      ensures Valid()
      ensures endReading == value && startReading == old(startReading)
      ensures usage == old(usage) && error == old(error) && calculated == old(calculated)
    {
      endReading := value;
    }

    /**
     * `handleCalculate`: the error and the shown flag are reset, then set along
     * the outcome of Calculate; a failure leaves the previous usage in place.
     */
    method HandleCalculate()
      requires Valid()
      modifies this
      ensures Valid()
      ensures startReading == old(startReading) && endReading == old(endReading)
      ensures Calculate(startReading, endReading).Computed? ==>
        calculated && error == "" && usage == Some(Calculate(startReading, endReading).usage)
      ensures Calculate(startReading, endReading).Failed? ==>
        !calculated && error == Calculate(startReading, endReading).message && usage == old(usage)
    {
      error := "";
      calculated := false;
      if startReading == "" || endReading == "" {
        error := MissingReadings;
        return;
      }
      if !ValidateReading(startReading) || !ValidateReading(endReading) {
        error := InvalidReadings;
        return;
      }
      var start := ReadingValue(startReading);
      var end := ReadingValue(endReading);
      var result := CalculateUsage(start, end);
      if result.Success? {
        usage := Some(result.value);
        usageStart, usageEnd := startReading, endReading;
        calculated := true;
      } else {
        error := result.error;
      }
    }

    /** The result line: present only while `calculated`; a failed press hides it, a later reading change does not. */
    function ShownUsage(): (shown: Option<real>)
      requires Valid()
      reads this
      ensures shown.Some? <==> calculated
      ensures shown.Some? ==> shown.value >= 0.0 && Calculate(usageStart, usageEnd) == Computed(shown.value)
    {
      if calculated && usage.Some? then usage else None
    }
  }
}
