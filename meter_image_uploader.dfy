/**
 * The reading slot of src/components/MeterImageUploader.tsx: five pieces of
 * component state, the owner's `onReadingChange` callback recorded as a log of
 * the strings it received, and the two event handlers.
 *
 * `handleFileChange` awaits the recognizer, so it is split in two: a step that
 * starts recognition and a completion step (success or failure). A completion
 * may arrive at any time after its start; nothing discards a superseded one.
 */
module MeterUpload {
  import opened Wrappers
  import opened OcrUtils

  /** What a rejected recognition can throw: an `Error` object, or any other value. */
  datatype Thrown = ErrorObject(message: string) | NonErrorValue

  const GenericOcrError := "Error processing image"
  const InvalidReadingMessage := "Please enter a valid positive number"

  /** The text shown for a rejected recognition: the error's own message, else a fixed one. */
  function FailureMessage(thrown: Thrown): string {
    match thrown
    case ErrorObject(message) => message
    case NonErrorValue => GenericOcrError
  }

  class MeterImageUploader {
    var selectedFile: Option<ImageFile>
    var preview: string
    var reading: string
    var isProcessing: bool
    var error: string
    /** Every string passed to the owner's `onReadingChange`, oldest first. */
    var sentToOwner: seq<string>
    /** For each entry of `sentToOwner`, whether it came from a manual edit rather than recognition. */
    ghost var typedByUser: seq<bool>

    /**
     * A slot that is processing has a file; every value the user typed that
     * reached the owner passed `validateReading`. Recognized values reach the
     * owner unchecked.
     */
    ghost predicate Valid()
      reads this
    {
      |typedByUser| == |sentToOwner|
      && (isProcessing ==> selectedFile.Some?)
      && (forall k :: 0 <= k < |sentToOwner| && typedByUser[k] ==> ValidateReading(sentToOwner[k]))
    }

    constructor()
      ensures Valid()
      ensures selectedFile == None && preview == "" && reading == "" && error == ""
      ensures !isProcessing && sentToOwner == []
    {
      selectedFile := None;
      preview := "";
      reading := "";
      isProcessing := false;
      error := "";
      sentToOwner := [];
      typedByUser := [];
    }

    /**
     * The synchronous part of `handleFileChange`. With no file nothing changes;
     * otherwise the file and its preview URL are recorded, the error is cleared
     * and recognition starts. The reading stays as it was until a completion.
     */
    method BeginFileChange(file: Option<ImageFile>, previewUrl: string) returns (started: bool)
      requires Valid()
      modifies this
      ensures Valid()
      ensures started <==> file.Some?
      ensures !started ==> unchanged(this)
      ensures started ==> selectedFile == file && preview == previewUrl && error == "" && isProcessing
      ensures reading == old(reading) && sentToOwner == old(sentToOwner) && typedByUser == old(typedByUser)
    {
      if file.None? {
        return false;
      }
      selectedFile := file;
      preview := previewUrl;
      error := "";
      isProcessing := true;
      started := true;
    }

    /** Recognition resolved with `result`: it becomes the reading and goes to the owner unchecked. */
    method OcrSucceeded(result: string)
      requires Valid()
      modifies this
      ensures Valid()
      ensures reading == result && !isProcessing
      ensures sentToOwner == old(sentToOwner) + [result]
      ensures typedByUser == old(typedByUser) + [false]
      ensures error == old(error) && selectedFile == old(selectedFile) && preview == old(preview)
    {
      reading := result;
      sentToOwner := sentToOwner + [result];
      typedByUser := typedByUser + [false];
      isProcessing := false;
    }

    /** Recognition rejected: the error is shown, the reading is kept and the owner hears nothing. */
    method OcrFailed(thrown: Thrown)
      requires Valid()
      modifies this
      ensures Valid()
      ensures error == FailureMessage(thrown) && !isProcessing
      ensures reading == old(reading) && sentToOwner == old(sentToOwner) && typedByUser == old(typedByUser)
      ensures selectedFile == old(selectedFile) && preview == old(preview)
    {
      error := FailureMessage(thrown);
      isProcessing := false;
    }

    /**
     * Completion of the simulated recognizer for `file`: the type gate rejects a
     * file whose type does not begin with `image/`; otherwise the recognizer's
     * output (random in the source, a parameter here) is delivered.
     */
    method CompleteRecognition(file: ImageFile, recognized: string)
      requires Valid()
      modifies this
      ensures Valid()
      ensures !isProcessing && selectedFile == old(selectedFile) && preview == old(preview)
      ensures CheckImageFile(Some(file)).Some? ==>
        error == InvalidFileType && reading == old(reading) && sentToOwner == old(sentToOwner)
      ensures CheckImageFile(Some(file)).None? ==>
        error == old(error) && reading == recognized && sentToOwner == old(sentToOwner) + [recognized]
    {
      var rejection := CheckImageFile(Some(file));
      if rejection.Some? {
        OcrFailed(ErrorObject(rejection.value));
      } else {
        OcrSucceeded(recognized);
      }
    }

    /**
     * `handleReadingChange`: the typed text always becomes the reading; a valid
     * reading goes to the owner and clears the error, an invalid one sets the
     * error and reaches no one.
     */
    method HandleReadingChange(value: string)
      requires Valid()
      modifies this
      ensures Valid()
      ensures reading == value
      ensures ValidateReading(value) ==>
        error == "" && sentToOwner == old(sentToOwner) + [value] && typedByUser == old(typedByUser) + [true]
      ensures !ValidateReading(value) ==>
        error == InvalidReadingMessage && sentToOwner == old(sentToOwner) && typedByUser == old(typedByUser)
      ensures isProcessing == old(isProcessing) && selectedFile == old(selectedFile) && preview == old(preview)
    {
      reading := value;
      if ValidateReading(value) {
        sentToOwner := sentToOwner + [value];
        typedByUser := typedByUser + [true];
        error := "";
      } else {
        error := InvalidReadingMessage;
      }
    }
  }
}
