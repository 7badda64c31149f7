/** The Flask variant (app.py): `allowed_file`, the `(success, result)` wrapper around
    the extraction, the `/upload` handler's checks, `max_pages` parsing and handling
    of the saved PDF, and `cleanup_files`. */
module App {
  import opened Common
  import opened Strings
  import opened Assembly
  import opened Storage
  import Api

  /** The batch size `upload_file` passes. */
  const PagesPerBatch: nat := 5

  /** The language when the form gives none. */
  const DefaultLanguage := "hin"

  /** A file part of the request: the client's file name and the bytes sent. */
  datatype Upload = Upload(filename: string, content: Bytes)

  /** The form fields `language` and `max_pages`, when sent. */
  datatype Form = Form(language: Option<string>, maxPages: Option<string>)

  /** The reply of `/upload`: the JSON body of a success, or an error body and status. */
  datatype Reply =
    | Ok(message: string, fileId: string, downloadFilename: string)
    | HttpError(status: int, error: string)

  /** `'.' in filename and filename.rsplit('.', 1)[1].lower() in {'pdf'}`: the
      extension after the last dot is `pdf` in any case, so that dot is the fourth
      character from the end. */
  predicate AllowedFile(filename: string)
    ensures AllowedFile(filename) ==> LastIndexOf(filename, '.') == Some(|filename| - 4)
  {
    '.' in filename && Lower(RSplitTail(filename, '.')) == "pdf"
  }

  lemma PdfNameAllowed(filename: string)
    requires Api.IsPdfName(filename)
    ensures AllowedFile(filename)
  {
    var n := |filename|;
    Api.LastDotOfPdfName(filename);
    var low := Lower(filename);
    assert low[n - 4..] == ".pdf";
    var tail := RSplitTail(filename, '.');
    assert tail == filename[n - 3..];
    assert Lower(tail) == low[n - 3..];
  }

  lemma AllowedFileIsPdf(filename: string)
    requires AllowedFile(filename)
    ensures Api.IsPdfName(filename)
  {
    var n := |filename|;
    var i := LastIndexOf(filename, '.').value;
    var tail := filename[i + 1..];
    assert |tail| == 3;
    var low := Lower(filename);
    assert low[n - 4..] == [LowerChar(filename[i])] + Lower(tail);
  }

  /** app.py's extension test and api.py's suffix test accept exactly the same names. */
  lemma AllowedFileIsPdfName(filename: string)
    ensures AllowedFile(filename) <==> Api.IsPdfName(filename)
  {
    if Api.IsPdfName(filename) {
      PdfNameAllowed(filename);
    }
    if AllowedFile(filename) {
      AllowedFileIsPdf(filename);
    }
  }

  /** `int(max_pages) if max_pages and max_pages.strip() else None`: a missing, empty or
      blank value means no limit, anything else goes to `int()`, whose `ValueError`
      message is the failure. */
  function ParseMaxPages(raw: Option<string>): (r: Result<Option<int>>)
    ensures r == Success(None) <==> raw.None? || forall i :: 0 <= i < |raw.value| ==> IsSpace(raw.value[i])
    ensures r.Failure? <==> raw.Some? && Strip(raw.value) != [] && ParseInt(raw.value).Failure?
    ensures r.Failure? ==> r.error == ParseInt(raw.value).error
  {
    if raw.None? || raw.value == [] || Strip(raw.value) == [] then Success(None)
    else
      match ParseInt(raw.value)
      case Failure(message) => Failure(message)
      case Success(n) => Success(Some(n))
  }

  /** A value that ends in a non-blank character and that `int()` reads is that limit. */
  lemma ParseMaxPagesOfLiteral(text: string, n: int)
    requires text != [] && !IsSpace(text[|text| - 1])
    requires ParseInt(text) == Success(n)
    ensures ParseMaxPages(Some(text)) == Success(Some(n))
  {
    assert Strip(text) != [] by {
      assert !IsSpace(text[|text| - 1]);
    }
  }

  /** A value that ends in a non-blank character and that `int()` refuses is a failure
      with `int()`'s message. */
  lemma ParseMaxPagesRefused(text: string, message: string)
    requires text != [] && !IsSpace(text[|text| - 1])
    requires ParseInt(text) == Failure(message)
    ensures ParseMaxPages(Some(text)) == Failure(message)
  {
    assert Strip(text) != [] by {
      assert !IsSpace(text[|text| - 1]);
    }
  }

  /** A value that `strip()` finds non-blank but whose outer characters `int()` does not
      skip is refused: `"\U{1C}5"` is a 500 answer, not a limit of 5. */
  lemma SeparatorLimitRefused()
    ensures ParseMaxPages(Some("\U{1C}5")) == Failure(InvalidLiteral("\U{1C}5"))
  {
    SeparatorStripped();
    SeparatorNotIntSpace();
  }

  /** A limit sent as `str(n)` reads back as `n` when its decimal text has at most
      `MaxStrDigits` digits; a longer one is a 500 answer with `int()`'s digit-limit
      message. */
  lemma MaxPagesRoundTrip(n: int)
    ensures var digits := |NatToString(if n < 0 then -n else n)|;
      ParseMaxPages(Some(IntToString(n)))
        == if digits <= MaxStrDigits then Success(Some(n)) else Failure(DigitLimit(digits))
  {
    var text := IntToString(n);
    var digits := |NatToString(if n < 0 then -n else n)|;
    assert !IsSpace(text[|text| - 1]);
    ParseIntOfString(n);
    if digits <= MaxStrDigits {
      ParseMaxPagesOfLiteral(text, n);
    } else {
      ParseMaxPagesRefused(text, DigitLimit(digits));
    }
  }

  /** A `max_pages` of more than 4300 ones is a literal `int()` refuses for its length,
      so the upload is a 500 answer instead of a limit. */
  lemma OverlongLimitRefused(n: nat)
    requires n > MaxStrDigits
    ensures ParseMaxPages(Some(Repeat('1', n))) == Failure(DigitLimit(n))
  {
    var s := Repeat('1', n);
    OverlongRefused(n);
    assert s[0] == '1' && s[|s| - 1] == '1';
    StripLeavesLiteral(s);
  }

  /** `extract_text_from_pdf` of app.py: `(True, pages_to_process)` with the text
      written to `outputName`, or `(False, str(e))` with nothing written. */
  method ExtractTextFromPdf<Img>(folders: Folders, outputName: string, e: Engines<Img>, lang: string,
                                 pagesPerBatch: nat, maxPages: Option<int>)
    returns (result: Result<int>)
    modifies folders`outputs
    ensures var o := Extract(e, lang, pagesPerBatch, maxPages);
      && (o.Done? ==>
            && result == Success(o.pagesProcessed)
            && folders.outputs == old(folders.outputs)[outputName := o.written])
      && (o.Failed? ==>
            && result == Failure(o.message)
            && folders.outputs == old(folders.outputs))
  {
    var o := ExtractText(e, lang, pagesPerBatch, maxPages);
    if o.Failed? {
      return Failure(o.message);
    }
    folders.outputs := folders.outputs[outputName := o.written];
    return Success(o.pagesProcessed);
  }

  /** The file passes the three request checks of `/upload`. */
  predicate Accepted(file: Option<Upload>) {
    file.Some? && file.value.filename != "" && AllowedFile(file.value.filename)
  }

  /** The body of `/upload` once the request is accepted and `max_pages` read: save
      the PDF under `{file_id}_{name}` and process it. On success the PDF stays next to
      the text; on failure it is deleted and nothing is written. */
  method ProcessUpload<Img>(folders: Folders, e: Engines<Img>, upload: Upload, language: string,
                            maxPages: Option<int>, fileId: string, name: string)
    returns (reply: Reply)
    modifies folders
    ensures var pdfName := UploadName(fileId, name);
      var txtName := OutputName(fileId, name);
      var o := Extract(e, language, PagesPerBatch, maxPages);
      && (o.Done? ==>
            && reply == Ok("Successfully processed " + IntToString(o.pagesProcessed) + " pages", fileId, txtName)
            && folders.uploads == old(folders.uploads)[pdfName := upload.content]
            && folders.outputs == old(folders.outputs)[txtName := o.written])
      && (o.Failed? ==>
            && reply == HttpError(500, "Processing failed: " + o.message)
            && folders.uploads == old(folders.uploads) - {pdfName}
            && folders.outputs == old(folders.outputs))
  {
    var pdfName := UploadName(fileId, name);
    var txtName := OutputName(fileId, name);
    folders.uploads := folders.uploads[pdfName := upload.content];
    var result := ExtractTextFromPdf(folders, txtName, e, language, PagesPerBatch, maxPages);
    if result.Success? {
      return Ok("Successfully processed " + IntToString(result.value) + " pages", fileId, txtName);
    }
    folders.uploads := folders.uploads - {pdfName};
    return HttpError(500, "Processing failed: " + result.error);
  }

  /** `/upload`. The request checks answer 400 and a bad `max_pages` 500 before
      anything is saved; an accepted request is processed under the name
      `secure` (which stands for `secure_filename`) gives the file. */
  method UploadFile<Img>(folders: Folders, e: Engines<Img>, file: Option<Upload>, form: Form,
                         fileId: string, secure: string -> string)
    returns (reply: Reply)
    modifies folders
    ensures file.None? ==> reply == HttpError(400, "No file provided") && unchanged(folders)
    ensures file.Some? && file.value.filename == "" ==>
      reply == HttpError(400, "No file selected") && unchanged(folders)
    ensures file.Some? && file.value.filename != "" && !AllowedFile(file.value.filename) ==>
      reply == HttpError(400, Api.InvalidType) && unchanged(folders)
    ensures Accepted(file) && ParseMaxPages(form.maxPages).Failure? ==>
      reply == HttpError(500, "Server error: " + ParseMaxPages(form.maxPages).error) && unchanged(folders)
    ensures Accepted(file) && ParseMaxPages(form.maxPages).Success? ==>
      var name := secure(file.value.filename);
      var pdfName := UploadName(fileId, name);
      var txtName := OutputName(fileId, name);
      var o := Extract(e, form.language.GetOr(DefaultLanguage), PagesPerBatch, ParseMaxPages(form.maxPages).value);
      && (o.Done? ==>
            && reply == Ok("Successfully processed " + IntToString(o.pagesProcessed) + " pages", fileId, txtName)
            && folders.uploads == old(folders.uploads)[pdfName := file.value.content]
            && folders.outputs == old(folders.outputs)[txtName := o.written])
      && (o.Failed? ==>
            && reply == HttpError(500, "Processing failed: " + o.message)
            && folders.uploads == old(folders.uploads) - {pdfName}
            && folders.outputs == old(folders.outputs))
  {
    if file.None? {
      return HttpError(400, "No file provided");
    }
    var upload := file.value;
    if upload.filename == "" {
      return HttpError(400, "No file selected");
    }
    if !AllowedFile(upload.filename) {
      return HttpError(400, Api.InvalidType);
    }
    var language := form.language.GetOr(DefaultLanguage);
    var maxPages := ParseMaxPages(form.maxPages);
    if maxPages.Failure? {
      return HttpError(500, "Server error: " + maxPages.error);
    }
    var originalFilename := secure(upload.filename);
    reply := ProcessUpload(folders, e, upload, language, maxPages.value, fileId, originalFilename);
  }

  /** The entries of a folder whose names do not start with `fileId`. */
  function Unprefixed<V>(folder: map<string, V>, fileId: string): (kept: map<string, V>)
    ensures kept.Keys <= folder.Keys
    ensures forall n :: n in kept ==> !StartsWith(n, fileId) && kept[n] == folder[n]
  {
    map n | n in folder && !StartsWith(n, fileId) :: folder[n]
  }

  /** The inner loop of `cleanup_files`: every listed name starting with `fileId` is
      removed from the folder, in whatever order the listing gives. */
  method CleanFolder<V>(folder: map<string, V>, fileId: string) returns (kept: map<string, V>)
    ensures kept == Unprefixed(folder, fileId)
  {
    kept := folder;
    var listing := folder.Keys;
    while listing != {}
      invariant listing <= folder.Keys
      invariant forall n :: n in kept <==> n in folder && (n in listing || !StartsWith(n, fileId))
      invariant forall n :: n in kept ==> kept[n] == folder[n]
      decreases |listing|
    {
      var filename :| filename in listing;
      if StartsWith(filename, fileId) {
        kept := kept - {filename};
      }
      listing := listing - {filename};
    }
  }

  /** `cleanup_files(file_id)`: both folders lose exactly the files whose names start
      with `file_id`, and keep every other file as it was. */
  method CleanupFiles(folders: Folders, fileId: string)
    modifies folders
    ensures folders.uploads == Unprefixed(old(folders.uploads), fileId)
    ensures folders.outputs == Unprefixed(old(folders.outputs), fileId)
  {
    folders.uploads := CleanFolder(folders.uploads, fileId);
    folders.outputs := CleanFolder(folders.outputs, fileId);
  }

  /** What a cleanup leaves: exactly the names that do not start with the id, with
      their contents. */
  lemma UnprefixedExactly<V>(folder: map<string, V>, fileId: string, n: string)
    ensures n in Unprefixed(folder, fileId) <==> n in folder && !StartsWith(n, fileId)
    ensures n in Unprefixed(folder, fileId) ==> Unprefixed(folder, fileId)[n] == folder[n]
  {
  }

  /** A cleanup by an upload's id removes both files that upload created, whatever
      name it was given. */
  lemma CleanupRemovesUpload(uploads: map<string, Bytes>, outputs: map<string, string>, fileId: string, name: string)
    ensures UploadName(fileId, name) !in Unprefixed(uploads, fileId)
    ensures OutputName(fileId, name) !in Unprefixed(outputs, fileId)
  {
    assert StartsWith(UploadName(fileId, name), fileId) by {
      assert UploadName(fileId, name)[..|fileId|] == (fileId + "_")[..|fileId|];
    }
    assert StartsWith(OutputName(fileId, name), fileId) by {
      assert OutputName(fileId, name)[..|fileId|] == (fileId + "_")[..|fileId|];
    }
  }

  /** Cleanup is idempotent: a second cleanup by the same id changes nothing. */
  lemma CleanupIdempotent<V>(folder: map<string, V>, fileId: string)
    ensures Unprefixed(Unprefixed(folder, fileId), fileId) == Unprefixed(folder, fileId)
  {
  }
}
