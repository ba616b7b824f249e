/**
 * The shared calculator of src/components/SharedUsageCalculator.tsx: your own
 * meter's reading and the shared meter's remaining units, each filled in by a
 * reading slot. Calculate checks both and shows the two parsed values as they
 * are: there is no subtraction, no split and no ordering check.
 */
module SharedUsage {
  import opened Wrappers
  import opened JsText
  import opened OcrUtils

  const MissingReadings := "Please provide both meter readings"
  const InvalidReadings := "Please enter valid positive numbers for both readings"

  /** The `calculationResult` record. */
  datatype SharedResult = SharedResult(yourUsage: real, remainingUnits: real)

  datatype Outcome = Failed(message: string) | Computed(result: SharedResult)

  /** The decision of `handleCalculate`: a missing reading first, then an invalid one. */
  function Calculate(yourMeterReading: string, sharedMeterReading: string): (o: Outcome)
    ensures (o.Failed? && o.message == MissingReadings) <==> yourMeterReading == "" || sharedMeterReading == ""
    ensures o.Computed? <==>
      yourMeterReading != "" && sharedMeterReading != ""
      && ValidateReading(yourMeterReading) && ValidateReading(sharedMeterReading)
    ensures o.Failed? ==> o.message in {MissingReadings, InvalidReadings}
    ensures o.Computed? ==>
      ParseFloat(yourMeterReading) == Finite(o.result.yourUsage)
      && ParseFloat(sharedMeterReading) == Finite(o.result.remainingUnits)
      && o.result.yourUsage >= 0.0 && o.result.remainingUnits >= 0.0
  {
    if yourMeterReading == "" || sharedMeterReading == "" then Failed(MissingReadings)
    else if !ValidateReading(yourMeterReading) || !ValidateReading(sharedMeterReading) then Failed(InvalidReadings)
    else Computed(SharedResult(ReadingValue(yourMeterReading), ReadingValue(sharedMeterReading)))
  }

  /** The button is enabled exactly when pressing it cannot report a missing reading. */
  function CalculateEnabled(yourMeterReading: string, sharedMeterReading: string): (enabled: bool)
    ensures enabled <==> Calculate(yourMeterReading, sharedMeterReading) != Failed(MissingReadings)
  {
    !(yourMeterReading == "" || sharedMeterReading == "")
  }

  /** With no ordering check, swapping the two readings swaps the two shown values. */
  lemma CalculateIgnoresOrder(yourMeterReading: string, sharedMeterReading: string)
    ensures Calculate(yourMeterReading, sharedMeterReading).Computed?
      <==> Calculate(sharedMeterReading, yourMeterReading).Computed?
    ensures Calculate(yourMeterReading, sharedMeterReading).Computed? ==>
      var r := Calculate(yourMeterReading, sharedMeterReading).result;
      Calculate(sharedMeterReading, yourMeterReading).result == SharedResult(r.remainingUnits, r.yourUsage)
  {
  }

  /** Two decimal numerals are shown with their own values, whichever is larger. */
  lemma CalculateOnNumerals(your: string, shared: string)
    requires IsDecimalNumeral(your) && IsDecimalNumeral(shared)
    ensures Calculate(your, shared) == Computed(SharedResult(NumeralValue(your), NumeralValue(shared)))
  {
    NumeralWithTrailingTextAccepted(your, []);
    NumeralWithTrailingTextAccepted(shared, []);
    assert your + [] == your && shared + [] == shared;
  }

  class SharedUsageCalculator {
    var yourMeterReading: string
    var sharedMeterReading: string
    var calculationResult: Option<SharedResult>
    var error: string
    var calculated: bool
    /** The readings of the press that last stored a result. */
    ghost var resultYour: string
    ghost var resultShared: string

    ghost predicate Valid()
      reads this
    {
      (calculationResult.Some? ==> Calculate(resultYour, resultShared) == Computed(calculationResult.value))
      && (calculated ==> calculationResult.Some? && error == "")
    }

    constructor()
      ensures Valid()
      ensures yourMeterReading == "" && sharedMeterReading == ""
      ensures calculationResult == None && error == "" && !calculated
    {
      yourMeterReading := "";
      sharedMeterReading := "";
      calculationResult := None;
      error := "";
      calculated := false;
      resultYour := "";
      resultShared := "";
    }

    /** Your slot's owner callback. */
    method SetYourMeterReading(value: string)
      requires Valid()
      modifies this
      ensures Valid()
      ensures yourMeterReading == value && sharedMeterReading == old(sharedMeterReading)
      ensures calculationResult == old(calculationResult) && error == old(error) && calculated == old(calculated)
    {
      yourMeterReading := value;
    }

    /** The shared slot's owner callback. */
    method SetSharedMeterReading(value: string)
      requires Valid()
      modifies this
      ensures Valid()
      ensures sharedMeterReading == value && yourMeterReading == old(yourMeterReading)
      ensures calculationResult == old(calculationResult) && error == old(error) && calculated == old(calculated)
    {
      sharedMeterReading := value;
    }

    /** `handleCalculate`: reset, then an error, or the parsed pair; errors keep the old result. */
    method HandleCalculate()
      requires Valid()
      modifies this
      ensures Valid()
      ensures yourMeterReading == old(yourMeterReading) && sharedMeterReading == old(sharedMeterReading)
      ensures Calculate(yourMeterReading, sharedMeterReading).Computed? ==>
        calculated && error == ""
        && calculationResult == Some(Calculate(yourMeterReading, sharedMeterReading).result)
      ensures Calculate(yourMeterReading, sharedMeterReading).Failed? ==>
        !calculated && error == Calculate(yourMeterReading, sharedMeterReading).message
        && calculationResult == old(calculationResult)
    {
      error := "";
      calculated := false;
      if yourMeterReading == "" || sharedMeterReading == "" {
        error := MissingReadings;
        return;
      }
      if !ValidateReading(yourMeterReading) || !ValidateReading(sharedMeterReading) {
        error := InvalidReadings;
        return;
      }
      var yourUsage := ReadingValue(yourMeterReading);
      var remaining := ReadingValue(sharedMeterReading);
      calculationResult := Some(SharedResult(yourUsage, remaining));
      resultYour, resultShared := yourMeterReading, sharedMeterReading;
      calculated := true;
    }

    /** The result panel: present only while `calculated`; a failed press hides it, a later reading change does not. */
    function ShownResult(): (shown: Option<SharedResult>)
      requires Valid()
      reads this
      ensures shown.Some? <==> calculated
      ensures shown.Some? ==> Calculate(resultYour, resultShared) == Computed(shown.value)
    {
      if calculated && calculationResult.Some? then calculationResult else None
    }
  }
}
