/**
 * The upload middleware (src/middleware/upload.js): the MIME allow-list and
 * its extensions, the file filter, the stored file name, the 5 MiB limit, and
 * the mapping of upload errors to responses. The multipart parser it
 * configures is modelled only as far as the route relies on it: files are
 * taken in order, the sixth file of the field is refused, each file is
 * filtered, named and then measured against the size limit.
 */
module Upload {
  import opened Common
  import opened Http

  /** MIME_TYPES: accepted MIME type to the extension of the stored file. */
  const MimeTypes: map<string, string> := map[
    "image/jpeg" := "jpg",
    "image/jpg" := "jpg",
    "image/png" := "png",
    "image/gif" := "gif",
    "image/webp" := "webp"]

  /** `limits.fileSize`, in bytes. */
  const MaxFileSize: nat := 5 * 1024 * 1024

  /** `upload.array("images", 5)`. */
  const MaxFileCount: nat := 5

  const InvalidFileTypeMessage: string := "Invalid file type. Only JPEG, PNG, GIF and WebP images are allowed."
  const FileTooLargeMessage: string := "File too large. Max size is 5MB."

  /** The multipart parser's error codes and the messages it gives them. */
  const LimitFileSize: string := "LIMIT_FILE_SIZE"
  const LimitFileSizeMessage: string := "File too large"
  const LimitUnexpectedFile: string := "LIMIT_UNEXPECTED_FILE"
  const LimitUnexpectedFileMessage: string := "Unexpected field"

  /** An error raised while receiving files: the parser's own kind, or a plain `Error`. */
  datatype UploadError = MulterError(code: string, message: string) | PlainError(message: string)

  /** A file part as the client sent it. */
  datatype IncomingFile = IncomingFile(mimetype: string, size: nat)

  /** A file written to the uploads directory under `filename`. */
  datatype StoredFile = StoredFile(filename: string, mimetype: string, size: nat)

  /** What an error-handling middleware does: pass control on, or answer. */
  datatype Continuation = Next | Respond(response: Response)

  /** fileFilter: accept the five image types, reject anything else with a fixed error. */
  function FileFilter(mimetype: string): (r: Option<UploadError>)
    ensures r.None? <==> mimetype in {"image/jpeg", "image/jpg", "image/png", "image/gif", "image/webp"}
    ensures r.Some? ==> r.value == PlainError(InvalidFileTypeMessage)
  {
    if mimetype in MimeTypes then None else Some(PlainError(InvalidFileTypeMessage))
  }

  /** The extension MIME_TYPES gives an accepted type. */
  function Extension(mimetype: string): (ext: string)
    requires mimetype in MimeTypes
    ensures ext == "jpg" <==> mimetype == "image/jpeg" || mimetype == "image/jpg"
    ensures ext != "jpg" ==> mimetype == "image/" + ext
  {
    MimeTypes[mimetype]
  }

  predicate IsDigit(c: char) { '0' <= c <= '9' }

  /** The decimal digits of `n`, as JavaScript writes a number when it is added to a string. */
  function Decimal(n: nat): (r: string)
    ensures |r| >= 1
    ensures forall c :: c in r ==> IsDigit(c)
  {
    if n < 10 then [(n + '0' as int) as char]
    else Decimal(n / 10) + [(n % 10 + '0' as int) as char]
  }

  /** The number a string of decimal digits denotes. */
  function Value(digits: string): nat
    requires forall c :: c in digits ==> IsDigit(c)
  {
    if digits == [] then 0
    else
      assert digits[|digits| - 1] in digits && IsDigit(digits[|digits| - 1]);
      Value(digits[..|digits| - 1]) * 10 + (digits[|digits| - 1] as int - '0' as int)
  }

  lemma {:induction false} DecimalValue(n: nat)
    ensures Value(Decimal(n)) == n
  {
    if n >= 10 {
      var d := Decimal(n);
      assert d[..|d| - 1] == Decimal(n / 10);
      DecimalValue(n / 10);
    }
  }

  /** The position of the first `c` in `s`. */
  function IndexOf(s: string, c: char): (r: Option<nat>)
    ensures r.None? ==> c !in s
    ensures r.Some? ==> r.value < |s| && s[r.value] == c && c !in s[..r.value]
  {
    if s == [] then None
    else if s[0] == c then Some(0)
    else match IndexOf(s[1..], c)
      case None => None
      case Some(k) =>
        assert s[..k + 1] == [s[0]] + s[1..][..k];
        Some(k + 1)
  }

  /** Reads a stored file name back as its timestamp and its extension. */
  function SplitStoredName(name: string): Option<(nat, string)>
  {
    match IndexOf(name, '.')
    case None => None
    case Some(k) =>
      if k > 0 && forall c :: c in name[..k] ==> IsDigit(c) then Some((Value(name[..k]), name[k + 1..]))
      else None
  }

  /**
   * storage.filename: `Date.now() + '.' + extension`, with the clock reading
   * `now`. The name determines the clock reading and the extension it was
   * made from.
   */
  function StoredName(now: nat, mimetype: string): (name: string)
    requires mimetype in MimeTypes
    ensures SplitStoredName(name) == Some((now, Extension(mimetype)))
  {
    var digits, ext := Decimal(now), Extension(mimetype);
    var name := digits + "." + ext;
    assert name[|digits|] == '.';
    assert name[..|digits|] == digits;
    assert name[|digits| + 1..] == ext;
    assert '.' !in digits;
    DecimalValue(now);
    name
  }

  /** A file the filter and the size limit both let through. */
  predicate Acceptable(f: IncomingFile) {
    f.mimetype in MimeTypes && f.size <= MaxFileSize
  }

  /** The file stored for an acceptable part received when the clock read `now`. */
  function Stored(f: IncomingFile, now: nat): StoredFile
    requires Acceptable(f)
  {
    StoredFile(StoredName(now, f.mimetype), f.mimetype, f.size)
  }

  /**
   * The error the parser raises for file `f` when `accepted` files of the
   * field are already stored: the count limit first, then the file filter,
   * then the size limit; none for a file it stores.
   */
  function FileError(f: IncomingFile, accepted: nat): (r: Option<UploadError>)
    ensures r.None? <==> accepted < MaxFileCount && Acceptable(f)
  {
    if accepted >= MaxFileCount then Some(MulterError(LimitUnexpectedFile, LimitUnexpectedFileMessage))
    else if FileFilter(f.mimetype).Some? then FileFilter(f.mimetype)
    else if f.size > MaxFileSize then Some(MulterError(LimitFileSize, LimitFileSizeMessage))
    else None
  }

  /** File `k` is the first of `files` to raise an error, the files before it being stored. */
  predicate FirstOffender(files: seq<IncomingFile>, accepted: nat, k: int, e: UploadError) {
    && 0 <= k < |files|
    && (forall j :: 0 <= j < k ==> FileError(files[j], accepted + j).None?)
    && FileError(files[k], accepted + k) == Some(e)
  }

  /** A file the parser stores in front of the first offender of the rest makes it the first offender of all. */
  lemma OffenderShift(files: seq<IncomingFile>, accepted: nat, k: int, e: UploadError)
    requires files != [] && FileError(files[0], accepted).None?
    requires FirstOffender(files[1..], accepted + 1, k, e)
    ensures FirstOffender(files, accepted, k + 1, e)
  {
    forall j | 0 <= j < k + 1 ensures FileError(files[j], accepted + j).None? {
      if j > 0 {
        assert files[j] == files[1..][j - 1];
      }
    }
  }

  /** Receives the remaining parts after `accepted` were already stored; `clock[i]` is Date.now() for `files[i]`. */
  function ReceiveFrom(files: seq<IncomingFile>, clock: seq<nat>, accepted: nat): (r: Result<seq<StoredFile>, UploadError>)
    requires |clock| == |files|
    requires accepted <= MaxFileCount
    ensures r.Ok? <==> accepted + |files| <= MaxFileCount && forall f :: f in files ==> Acceptable(f)
    ensures r.Ok? ==> |r.value| == |files| && forall i :: 0 <= i < |files| ==> r.value[i] == Stored(files[i], clock[i])
    ensures r.Err? ==> exists k :: FirstOffender(files, accepted, k, r.error)
    decreases files
  {
    if files == [] then Ok([])
    else if accepted == MaxFileCount then
      assert FirstOffender(files, accepted, 0, MulterError(LimitUnexpectedFile, LimitUnexpectedFileMessage));
      Err(MulterError(LimitUnexpectedFile, LimitUnexpectedFileMessage))
    else match FileFilter(files[0].mimetype)
      case Some(e) =>
        assert files[0] in files;
        assert FirstOffender(files, accepted, 0, e);
        Err(e)
      case None =>
        assert files[0] in files;
        if files[0].size > MaxFileSize then
          assert FirstOffender(files, accepted, 0, MulterError(LimitFileSize, LimitFileSizeMessage));
          Err(MulterError(LimitFileSize, LimitFileSizeMessage))
        else match ReceiveFrom(files[1..], clock[1..], accepted + 1)
          case Err(e) =>
            var k :| FirstOffender(files[1..], accepted + 1, k, e);
            OffenderShift(files, accepted, k, e);
            Err(e)
          case Ok(rest) =>
            assert files == [files[0]] + files[1..];
            Ok([Stored(files[0], clock[0])] + rest)
  }

  /** `upload.array("images", 5)`: all parts stored in order, or the error of the first part the parser refuses. */
  function Receive(files: seq<IncomingFile>, clock: seq<nat>): (r: Result<seq<StoredFile>, UploadError>)
    requires |clock| == |files|
    ensures r.Ok? <==> |files| <= MaxFileCount && forall f :: f in files ==> Acceptable(f)
    ensures r.Ok? ==> |r.value| == |files| && forall i :: 0 <= i < |files| ==> r.value[i] == Stored(files[i], clock[i])
    ensures r.Err? ==> exists k :: FirstOffender(files, 0, k, r.error)
  {
    ReceiveFrom(files, clock, 0)
  }

  /** handleUploadError: every upload error becomes a 400; without one, the next handler runs. */
  function HandleUploadError(error: Option<UploadError>): (r: Continuation)
    ensures r.Next? <==> error.None?
    ensures r.Respond? ==> r.response.status == 400
    ensures error.Some? && error.value == MulterError(LimitFileSize, error.value.message) ==>
      r == Respond(Response(400, Message(FileTooLargeMessage)))
    ensures error.Some? && error.value != MulterError(LimitFileSize, error.value.message) ==>
      r == Respond(Response(400, Message(error.value.message)))
  {
    match error
    case None => Next
    case Some(MulterError(code, message)) =>
      if code == LimitFileSize then Respond(Response(400, Message(FileTooLargeMessage)))
      else Respond(Response(400, Message(message)))
    case Some(PlainError(message)) => Respond(Response(400, Message(message)))
  }

  /** A file over the limit by one byte is refused with the size message; one at the limit is stored. */
  lemma SizeLimitBoundary(mimetype: string, now: nat)
    requires mimetype in MimeTypes
    ensures Receive([IncomingFile(mimetype, MaxFileSize)], [now]).Ok?
    ensures Receive([IncomingFile(mimetype, MaxFileSize + 1)], [now]) == Err(MulterError(LimitFileSize, LimitFileSizeMessage))
    ensures HandleUploadError(Some(MulterError(LimitFileSize, LimitFileSizeMessage)))
         == Respond(Response(400, Message(FileTooLargeMessage)))
  {
  }
}
