/** components/pdf-upload.tsx: the drop handler of the upload widget and
    the limits its dropzone is configured with. */
module PdfUpload {
  import opened Wrappers

  /** A browser `File`, as far as the handler looks at it. */
  datatype File = File(name: string, size: nat, mimeType: string)

  /** A file the dropzone refused, with the reasons it gives. */
  datatype FileRejection = FileRejection(file: File, errors: seq<string>)

  /** The size bound, 50 MiB, used both in the dropzone options and in the
      handler's own check. */
  const MaxBytes: nat := 50 * 1024 * 1024
  /** The dropzone's `accept` option: MIME type and the extensions for it. */
  const Accept: map<string, seq<string>> := map["application/pdf" := [".pdf"]]
  /** The dropzone's `multiple` option. */
  const Multiple := false

  const InvalidFileMessage := "Please upload a valid PDF file"
  const TooLargeMessage := "File size must be less than 50MB"

  /** What one drop leaves behind: the error shown, and the files handed to
      `onFileUpload` (none or one). */
  datatype DropResult = DropResult(error: Option<string>, uploads: seq<File>)

  /** The drop handler's decision on the two lists the dropzone passes it. */
  function DropOutcome(accepted: seq<File>, rejected: seq<FileRejection>): (r: DropResult)
    // any rejection wins, even beside accepted files
    ensures rejected != [] ==> r == DropResult(Some(InvalidFileMessage), [])
    // at most one upload, always the first accepted file, and only when nothing is wrong
    ensures |r.uploads| <= 1
    ensures r.uploads != [] <==> rejected == [] && accepted != [] && accepted[0].size <= 52428800
    ensures r.uploads != [] ==> r.uploads == [accepted[0]] && r.error.None?
    // the size bound is strict: only a first file above 52,428,800 bytes is too large
    ensures rejected == [] && accepted != [] && accepted[0].size > 52428800 ==>
              r.error == Some(TooLargeMessage) && r.uploads == []
    // the error is always one of the two messages or cleared
    ensures r.error.None? || r.error == Some(InvalidFileMessage) || r.error == Some(TooLargeMessage)
    // an empty drop uploads nothing and clears the error
    ensures accepted == [] && rejected == [] ==> r == DropResult(None, [])
  {
    if rejected != [] then DropResult(Some(InvalidFileMessage), [])
    else if accepted == [] then DropResult(None, [])
    else if accepted[0].size > MaxBytes then DropResult(Some(TooLargeMessage), [])
    else DropResult(None, [accepted[0]])
  }

  /** The upload widget's state: the `error` state variable and the files
      it has passed to `onFileUpload`, in order. */
  class PdfUploadWidget {
    var error: Option<string>
    var uploaded: seq<File>

    constructor ()
      ensures error.None? && uploaded == []
    {
      error := None;
      uploaded := [];
    }

    /** `onDrop`: clears the error, then sets it or uploads the first file.
        The new error does not depend on the one before. */
    method OnDrop(accepted: seq<File>, rejected: seq<FileRejection>)
      modifies this
      ensures error == DropOutcome(accepted, rejected).error
      ensures uploaded == old(uploaded) + DropOutcome(accepted, rejected).uploads
    {
      error := None;
      if |rejected| > 0 {
        error := Some(InvalidFileMessage);
        return;
      }
      if |accepted| > 0 {
        var file := accepted[0];
        if file.size > MaxBytes {
          error := Some(TooLargeMessage);
          return;
        }
        uploaded := uploaded + [file];
      }
    }
  }
}
