/** The file picker of the single-document chat (components/UploadScreen.tsx): a picked file
    is checked for size and type, read as a data URL, and handed on. Reading the file is a
    parameter; the files handed on are kept as a log. */
module UploadScreen {
  import opened Outcomes
  import opened Types

  /** 10 MiB. */
  const MaxSize := 10 * 1024 * 1024

  const AllowedTypes := ["application/pdf", "image/png", "image/jpeg", "image/webp", "text/plain", "text/csv"]

  const TooLarge := "File is too large. Max size is 10MB."
  const Unsupported := "Unsupported file type. Please upload PDF, PNG, JPG, or Text files."
  const ReadFailed := "Failed to read file."

  /** A picked file as the browser describes it. */
  datatype PickedFile = PickedFile(name: string, mimeType: string, size: nat)

  /** The validation error for a picked file, if any: size is checked before type. */
  function Rejection(file: PickedFile): (e: Option<string>)
    ensures e.None? <==> file.size <= MaxSize && file.mimeType in AllowedTypes
    ensures file.size > MaxSize ==> e == Some(TooLarge)
    ensures file.size <= MaxSize && file.mimeType !in AllowedTypes ==> e == Some(Unsupported)
  {
    if file.size > MaxSize then Some(TooLarge)
    else if file.mimeType !in AllowedTypes then Some(Unsupported)
    else None
  }

  class UploadScreen {
    var error: Option<string>
    var isProcessing: bool
    /** The files passed to `onFileSelect`, oldest first. */
    var selected: seq<UploadedFile>

    constructor ()
      ensures error.None? && !isProcessing && selected == []
    {
      error, isProcessing, selected := None, false, [];
    }

    /** `handleFile(file)`: clears the error, rejects an invalid file, and otherwise hands on
        the file with its data URL, or reports that it could not be read. */
    method HandleFile(file: PickedFile, read: Result<string>)
      modifies this
      ensures Rejection(file).Some? ==> error == Rejection(file) && selected == old(selected) && isProcessing == old(isProcessing)
      ensures Rejection(file).None? ==> !isProcessing
      ensures Rejection(file).None? && read.Err? ==> error == Some(ReadFailed) && selected == old(selected)
      ensures Rejection(file).None? && read.Ok? ==>
        error.None? && selected == old(selected) + [UploadedFile(file.name, file.mimeType, file.size, read.value)]
    {
      error := None;
      if file.size > MaxSize {
        error := Some(TooLarge);
        return;
      }
      if file.mimeType !in AllowedTypes {
        error := Some(Unsupported);
        return;
      }
      isProcessing := true;
      if read.Ok? {
        selected := selected + [UploadedFile(file.name, file.mimeType, file.size, read.value)];
      } else {
        error := Some(ReadFailed);
      }
      isProcessing := false;
    }
  }

  /** Exactly 10 MiB of an allowed type is accepted; one byte more is not. */
  lemma SizeLimitIsInclusive(name: string, mimeType: string)
    requires mimeType in AllowedTypes
    ensures Rejection(PickedFile(name, mimeType, MaxSize)).None?
    ensures Rejection(PickedFile(name, mimeType, MaxSize + 1)) == Some(TooLarge)
  {
  }
}
