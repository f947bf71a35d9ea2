/**
 * The upload stage in front of `POST /api/submit-art`: `upload.array('images', 5)`
 * with a 5 MB per-file limit and a filter that admits only media types under `image/`.
 * Files are looked at in the order they arrive; the first one that breaks a rule
 * fails the whole request, before the handler runs.
 */
module Upload {
  import opened Wrappers
  import Text

  /** `limits.fileSize`: 5 * 1024 * 1024 bytes; a file of exactly this size passes. */
  const MaxFileSize: nat := 5 * 1024 * 1024

  /** `upload.array('images', 5)`: the form field and the number of files it takes. */
  const FieldName: string := "images"
  const MaxFiles: nat := 5

  /**
   * A file part of the multipart request. `storedName` is the name the disk storage
   * gives it (a timestamp, a random number and the original extension), supplied
   * from outside because it depends on the clock and on randomness.
   */
  datatype IncomingFile = IncomingFile(
    fieldName: string,
    originalName: string,
    mimetype: string,
    size: nat,
    storedName: string)

  /** What the handler sees of an accepted file: `file.filename` and `file.originalname`. */
  datatype StoredFile = StoredFile(filename: string, originalName: string)

  /** LIMIT_UNEXPECTED_FILE, the filter's "Only image files are allowed!", LIMIT_FILE_SIZE. */
  datatype UploadError = UnexpectedFile | NotAnImage | FileTooLarge

  /** The `fileFilter`: `file.mimetype.startsWith('image/')`. */
  predicate FileFilter(mimetype: string)
  {
    Text.StartsWith(mimetype, "image/")
  }

  /** The filter accepts exactly the media types of the form `image/<subtype>`. */
  lemma FileFilterIsImagePrefix(mimetype: string)
    ensures FileFilter(mimetype) <==> |mimetype| >= 6 && mimetype == "image/" + mimetype[6..]
  {
    if |mimetype| >= 6 && mimetype == "image/" + mimetype[6..] {
      assert mimetype[..6] == "image/";
    }
  }

  /** What a file breaks, given how many files were taken before it. */
  function FileError(f: IncomingFile, position: nat): Option<UploadError>
  {
    if f.fieldName != FieldName || position >= MaxFiles then Some(UnexpectedFile)
    else if !FileFilter(f.mimetype) then Some(NotAnImage)
    else if f.size > MaxFileSize then Some(FileTooLarge)
    else None
  }

  /** A file the upload stage lets through wherever it stands among the first five. */
  predicate Acceptable(f: IncomingFile)
  {
    f.fieldName == FieldName && FileFilter(f.mimetype) && f.size <= MaxFileSize
  }

  function Stored(f: IncomingFile): StoredFile
  {
    StoredFile(f.storedName, f.originalName)
  }

  /** The files from position `k` on, each stored, or the error of the first bad one. */
  function ReceiveFrom(files: seq<IncomingFile>, k: nat): (r: Result<seq<StoredFile>, UploadError>)
    requires k <= |files|
    decreases |files| - k
    ensures r.Success? <==> forall i :: k <= i < |files| ==> FileError(files[i], i).None?
    ensures r.Success? ==> |r.value| == |files| - k &&
                           forall i :: k <= i < |files| ==> r.value[i - k] == Stored(files[i])
    ensures r.Failure? ==> exists i :: k <= i < |files| && FileError(files[i], i) == Some(r.error) &&
                                      forall j :: k <= j < i ==> FileError(files[j], j).None?
  {
    if k == |files| then Success([])
    else match FileError(files[k], k)
      case Some(e) => Failure(e)
      case None =>
        match ReceiveFrom(files, k + 1)
        case Success(rest) => Success([Stored(files[k])] + rest)
        case Failure(e) => Failure(e)
  }

  /**
   * The whole upload stage: every file is stored, in order, exactly when there are at
   * most five, all under the `images` field, all images and none over the size limit;
   * otherwise the request fails with the error of the first offending file.
   */
  function Receive(files: seq<IncomingFile>): (r: Result<seq<StoredFile>, UploadError>)
    ensures r.Success? <==> |files| <= MaxFiles && forall i :: 0 <= i < |files| ==> Acceptable(files[i])
    ensures r.Success? ==> |r.value| == |files| &&
                           forall i :: 0 <= i < |files| ==> r.value[i] == Stored(files[i])
    ensures r.Failure? ==> exists i :: 0 <= i < |files| && FileError(files[i], i) == Some(r.error) &&
                                      forall j :: 0 <= j < i ==> FileError(files[j], j).None?
  {
    assert |files| > MaxFiles ==> FileError(files[MaxFiles], MaxFiles).Some?;
    ReceiveFrom(files, 0)
  }
}
