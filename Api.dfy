/** The FastAPI variant (api.py): the `(success, pages_processed, error)` wrapper around
    the extraction, and the `/api/upload` handler's file-type check, naming and
    handling of the saved PDF. */
module Api {
  import opened Common
  import opened Strings
  import opened Assembly
  import opened Storage

  /** The batch size `upload_file` leaves at its default. */
  const PagesPerBatch: nat := 5

  const InvalidType := "Invalid file type. Only PDF files are allowed"

  /** The reply of `/api/upload`: the JSON body of a success, or an `HTTPException`. */
  datatype Reply =
    | Ok(message: string, fileId: string, pagesProcessed: int)
    | HttpError(status: int, detail: string)

  /** `filename.lower().endswith('.pdf')`: a name that passes has at least four
      characters, the fourth from the end being a dot. */
  predicate IsPdfName(filename: string)
    ensures IsPdfName(filename) ==> |filename| >= 4 && filename[|filename| - 4] == '.'
  {
    EndsWith(Lower(filename), ".pdf")
  }

  /** `filename.replace(' ', '_')`: the name with every space made an underscore and
      every other character kept. */
  function StoredName(filename: string): (r: string)
    ensures |r| == |filename| && ' ' !in r
    ensures forall i :: 0 <= i < |r| ==> r[i] == (if filename[i] == ' ' then '_' else filename[i])
  {
    ReplaceChar(filename, ' ', '_')
  }

  /** Python's `f"{error}"`: the message, or `None`. */
  function Show(error: Option<string>): string {
    match error
    case Some(m) => m
    case None => "None"
  }

  /** The last four characters of a name ending in `.pdf` whatever the case. */
  lemma PdfSuffix(s: string)
    requires IsPdfName(s)
    ensures |s| >= 4 && s[|s| - 4] == '.'
    ensures s[|s| - 3] != '.' && s[|s| - 2] != '.' && s[|s| - 1] != '.'
  {
    var n := |s|;
    var low := Lower(s);
    var tail := low[n - 4..];
    assert tail == ".pdf";
    assert tail[0] == low[n - 4] && tail[1] == low[n - 3] && tail[2] == low[n - 2] && tail[3] == low[n - 1];
    assert LowerChar(s[n - 4]) == '.';
  }

  /** A dot four from the end, followed by three other characters, is the last dot. */
  lemma LastDotFourFromEnd(s: string)
    requires |s| >= 4 && s[|s| - 4] == '.'
    requires s[|s| - 3] != '.' && s[|s| - 2] != '.' && s[|s| - 1] != '.'
    ensures LastIndexOf(s, '.') == Some(|s| - 4)
  {
    var n := |s|;
    assert '.' in s by {
      assert s[n - 4] == '.';
    }
  }

  /** In a name ending in `.pdf` whatever the case, the last dot is the one of that suffix. */
  lemma LastDotOfPdfName(s: string)
    requires IsPdfName(s)
    ensures LastIndexOf(s, '.') == Some(|s| - 4)
  {
    PdfSuffix(s);
    LastDotFourFromEnd(s);
  }

  /** The `.pdf` suffix holds no space, so replacing spaces leaves it as it was. */
  lemma StoredSuffix(filename: string)
    requires IsPdfName(filename)
    ensures |filename| >= 4 && StoredName(filename)[|filename| - 4..] == filename[|filename| - 4..]
  {
    var n := |filename|;
    var suffix, stored := filename[n - 4..], StoredName(filename);
    assert Lower(suffix) == ".pdf";
    forall k | 0 <= k < 4 ensures stored[n - 4 + k] == suffix[k] {
      assert LowerChar(suffix[k]) == ".pdf"[k] != ' ';
    }
    assert stored[n - 4..] == suffix;
  }

  lemma StoredNameKeepsPdf(filename: string)
    requires IsPdfName(filename)
    ensures IsPdfName(StoredName(filename))
  {
    StoredSuffix(filename);
  }

  /** The output name of a name ending in `.pdf` is its upload name with those four
      characters replaced by `.txt`. */
  lemma PdfExtensionSwapped(fileId: string, s: string)
    requires IsPdfName(s)
    ensures var upload := UploadName(fileId, s);
      OutputName(fileId, s) == upload[..|upload| - 4] + ".txt"
  {
    var n := |s|;
    LastDotOfPdfName(s);
    assert RSplitHead(s, '.') == s[..n - 4];
    var prefix := fileId + "_";
    var upload := UploadName(fileId, s);
    assert upload == prefix + s;
    assert upload[..|upload| - 4] == prefix + s[..n - 4];
  }

  /** For an accepted upload, the text file is named after the saved PDF with its
      four-character extension replaced by `.txt`; so `report 1.PDF` saved as
      `{file_id}_report_1.PDF` gives `{file_id}_report_1.txt`. */
  lemma PdfOutputName(fileId: string, filename: string)
    requires IsPdfName(filename)
    ensures var upload := UploadName(fileId, StoredName(filename));
      OutputName(fileId, StoredName(filename)) == upload[..|upload| - 4] + ".txt"
  {
    StoredNameKeepsPdf(filename);
    PdfExtensionSwapped(fileId, StoredName(filename));
  }

  /** Saving a file and deleting it again leaves the folder as it was, less any older
      file of that name. */
  lemma SavedThenDeleted<V>(folder: map<string, V>, name: string, content: V)
    ensures folder[name := content] - {name} == folder - {name}
  {
  }

  /** `extract_text_from_pdf` of api.py: `(True, pages_to_process, None)` with the
      text written to `outputName`, or `(False, 0, str(e))` with nothing written. */
  method ExtractTextFromPdf<Img>(folders: Folders, outputName: string, e: Engines<Img>, lang: string,
                                 pagesPerBatch: nat, maxPages: Option<int>)
    returns (success: bool, pagesProcessed: int, error: Option<string>)
    modifies folders`outputs
    ensures var o := Extract(e, lang, pagesPerBatch, maxPages);
      && (success <==> o.Done?)
      && (o.Done? ==>
            && pagesProcessed == o.pagesProcessed && error.None?
            && folders.outputs == old(folders.outputs)[outputName := o.written])
      && (o.Failed? ==>
            && pagesProcessed == 0 && error == Some(o.message)
            && folders.outputs == old(folders.outputs))
  {
    var o := ExtractText(e, lang, pagesPerBatch, maxPages);
    if o.Failed? {
      return false, 0, Some(o.message);
    }
    folders.outputs := folders.outputs[outputName := o.written];
    return true, o.pagesProcessed, None;
  }

  /** The `try` block of `/api/upload` once the name has passed the check: the PDF is
      saved under `{file_id}_{name}`, processed and deleted again whatever the
      outcome; on success the text is left in the output folder under the reported
      name. */
  method ProcessUpload<Img>(folders: Folders, e: Engines<Img>, fileId: string, name: string, content: Bytes,
                            language: string, maxPages: Option<int>)
    returns (reply: Reply)
    modifies folders
    ensures var pdfName := UploadName(fileId, name);
      var txtName := OutputName(fileId, name);
      var o := Extract(e, language, PagesPerBatch, maxPages);
      && folders.uploads == old(folders.uploads) - {pdfName}
      && (o.Done? ==>
            && reply == Ok("Successfully processed " + IntToString(o.pagesProcessed) + " pages", txtName, o.pagesProcessed)
            && folders.outputs == old(folders.outputs)[txtName := o.written])
      && (o.Failed? ==>
            && reply == HttpError(500, "OCR processing failed: " + o.message)
            && folders.outputs == old(folders.outputs))
  {
    var pdfName := UploadName(fileId, name);
    var txtName := OutputName(fileId, name);
    folders.uploads := folders.uploads[pdfName := content];
    var success, pagesProcessed, error := ExtractTextFromPdf(folders, txtName, e, language, PagesPerBatch, maxPages);
    folders.uploads := folders.uploads - {pdfName};
    assert folders.uploads == old(folders.uploads) - {pdfName} by {
      SavedThenDeleted(old(folders.uploads), pdfName, content);
    }
    if !success {
      return HttpError(500, "OCR processing failed: " + Show(error));
    }
    return Ok("Successfully processed " + IntToString(pagesProcessed) + " pages", txtName, pagesProcessed);
  }

  /** `/api/upload`. A name not ending in `.pdf` is refused before anything is saved;
      any other is stored with its spaces made underscores and processed. */
  method UploadFile<Img>(folders: Folders, e: Engines<Img>, fileId: string, filename: string, content: Bytes,
                         language: string, maxPages: Option<int>)
    returns (reply: Reply)
    modifies folders
    ensures !IsPdfName(filename) ==>
      reply == HttpError(400, InvalidType) && unchanged(folders)
    ensures IsPdfName(filename) ==>
      var pdfName := UploadName(fileId, StoredName(filename));
      var txtName := OutputName(fileId, StoredName(filename));
      var o := Extract(e, language, PagesPerBatch, maxPages);
      && folders.uploads == old(folders.uploads) - {pdfName}
      && (o.Done? ==>
            && reply == Ok("Successfully processed " + IntToString(o.pagesProcessed) + " pages", txtName, o.pagesProcessed)
            && folders.outputs == old(folders.outputs)[txtName := o.written])
      && (o.Failed? ==>
            && reply == HttpError(500, "OCR processing failed: " + o.message)
            && folders.outputs == old(folders.outputs))
  {
    if !IsPdfName(filename) {
      return HttpError(400, InvalidType);
    }
    var originalFilename := StoredName(filename);
    reply := ProcessUpload(folders, e, fileId, originalFilename, content, language, maxPages);
  }
}
