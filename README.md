# Batch OCR extraction pipeline: a Dafny model

This project models the core of a small PDF-to-text OCR service. The service has
two web front ends and one script:

- `api.py`, a FastAPI server;
- `app.py`, a Flask server;
- `main.py`, a command-line script.

All three share the same pipeline:

1. Count the pages of the PDF.
2. Limit the run to `pages_to_process` pages: `min(total, max_pages)`, or every page when `max_pages` is falsy.
3. Rasterize the pages in batches of `pages_per_batch` (5).
4. OCR every page image.
5. Build the whole text in memory and write it once at the end.

The two web variants write a header first (title, total pages, pages processed,
language, date, a rule of 80 `=`, a blank line). Then they write one
`\n--- Page k ---\n\n<text>\n` segment per page. The script writes only each page's
text followed by a blank line.

Around the pipeline, the model covers:

- the upload checks: api.py's `.pdf` suffix test and app.py's `allowed_file`;
- the names the upload and its output are stored under;
- app.py's parsing of the `max_pages` form field;
- what each upload handler does with the saved PDF on success and on failure;
- app.py's `cleanup_files`, which removes the files whose names start with an id.

Modules:

- `Common`: the `Option` and `Result` values and `min`.
- `Strings`: the Python string and integer operations used (`str(n)`, `int(s)`, `lower`, `strip`, `rsplit`, `replace`, `startswith`, `endswith`).
- `Batching`: the page limiter and the batch planner.
- `Assembly`: the extraction of the web variants, as a specification function `Extract` and the imperative loop `ExtractText` proved equal to it.
- `Script`: main.py's variant.
- `Storage`: the upload and output folders as a class with two maps, and the file-name scheme.
- `Api`: the FastAPI wrapper and its upload handler.
- `App`: the Flask wrapper, its upload handler and the cleanup.

The external engines are not modelled. These are the PDF reader, the rasterizer, the
OCR engine, the file write and the clock. They appear as the fields of
`Assembly.Engines`: each call returns a value or fails with the exception's message.

The one assumption the pipeline relies on is that the rasterizer returns one image for
every requested page. The model states it as a precondition of the theorems:
`ImageCountsMatch`, or `RastersInOrder` when the images' contents matter too. The
methods themselves assume nothing. Like `enumerate`, they number whatever images come
back.

Behaviours of the code worth knowing:

- app.py keeps the uploaded PDF after a successful run and deletes it only on failure.
- In all three variants, one page's OCR failure ends the whole run.
- app.py's success reply has no separate `pages_processed` field, unlike api.py's (api.py:134). The count appears only inside `message` (app.py:112).
- A `max_pages` of 0 means every page.
- A negative `max_pages` is truthy, so it is applied with `min`. The run then processes no pages and reports the negative number as the count of pages processed (`PagesToProcess` states this).

## Model

| member | source | states |
|---|---|---|
| Batching.PagesToProcess | api.py:52 | the limit is `total` unless a non-zero limit below `total` is given, which is then the result; the result never exceeds `total`, and is negative exactly when a negative limit is given (app.py:39 and main.py:24 are the same expression) |
| Batching.BatchesFrom | api.py:61-62 | the batches of `range(start, pages + 1, size)`, each ending at `min(start + size - 1, pages)`; every batch is a non-empty range of at most `size` pages inside `start..pages` |
| Batching.BatchesFromCover | api.py:61-62 | the batches from any start cover exactly the pages `start..pages`, in ascending order, each page once |
| Batching.BatchesFromShape | api.py:61-62 | every batch is a non-empty range of at most `pages_per_batch` pages inside the run; each batch begins right after the previous one ends; the first begins at the start and the last ends at `pages_to_process`; there are none exactly when the start is past the end |
| Batching.BatchesFromCount | main.py:30 | the number of batches is the number of steps of `range(start, pages + 1, size)` |
| Batching.BatchesPartition | app.py:48-50 | the batches partition `1..pages_to_process` into contiguous ascending ranges of at most `pages_per_batch` pages, and there are `ceil(pages_to_process / pages_per_batch)` of them |
| Assembly.Header | api.py:54-59 | the run header: the title line, the total and processed page counts, the language, the date, a rule of 80 `=` and a blank line; it opens with the title line and ends with the rule and the blank line |
| Assembly.Delimiter | api.py:67 | the line `--- Page k ---` that opens page `k`'s segment: it begins with a newline and `--- Page ` and ends with ` ---` and a blank line |
| Assembly.DelimiterNumber | api.py:67 | the digits inside a delimiter denote the page's number, so distinct pages get distinct delimiters |
| Assembly.Segment | api.py:67-69 | one page in the text: it opens with the page's delimiter, then holds exactly the page's OCR text, then a newline |
| Assembly.RecognizeImages | api.py:66-69 | the OCR of one batch's images, numbered as `enumerate(pages, start=start)` numbers them; on success image `i` becomes page `first + i` carrying the text the engine returned for that image |
| Assembly.RecognizeImagesFirstFailure | api.py:66-69 | a batch that fails fails with the message of its first failing OCR call, every earlier image having been recognised |
| Assembly.RecognizeEveryBatch | api.py:61-69 | the OCR of a run of batches (`Recognize`, batch after batch, ending at the first failure) succeeds exactly when every one of its batches is rasterized and the OCR of each of its images succeeds |
| Assembly.RecognizeSnoc | api.py:61-69 | a run extended by one more batch succeeds exactly when the run did and the new batch is rasterized and recognised |
| Assembly.Extract | api.py:47-76 | one run of `extract_text_from_pdf`; a successful run read the page count, used a non-zero step and wrote its text, reports the limited page count (never more than the PDF has) and its text opens with the header |
| Assembly.RenderConcat | api.py:66-69 | the segments of two runs of pages, one after the other, are the segments of the joined run |
| Assembly.RecognizeImagesFailureSticks | api.py:66-69 | once an OCR call in a batch fails, the batch fails with that message whatever images follow |
| Assembly.RecognizeFailureSticks | api.py:61-69 | once a batch fails, the run fails with that message whatever batches follow |
| Assembly.AppendBatch | api.py:66-69 | the inner loop appends, for each image in order, the delimiter of page `first + index` and the page's OCR text; its result is the first OCR failure, or the text extended by the batch's segments |
| Assembly.AppendBatches | api.py:61-69 | the batch loop rasterizes each batch of the plan in order and appends its segments; its result is the first failure, or the text extended by the segments of every recognised page |
| Assembly.ExtractText | api.py:47-74 | the whole loop (header, batches, one write at the end) returns exactly `Extract`: the first failure's message, or the pages processed and the header followed by every recognised page's segment |
| Assembly.RecognizeNumbers | app.py:52-56 | when the rasterizer returns one image per requested page, the recognised pages are numbered exactly by the pages the batches cover, in order |
| Assembly.ExtractPageNumbers | api.py:54-69 | under the same assumption a successful run reports `pages_to_process` pages and writes the header followed by segments whose page numbers are exactly 1, 2, ..., `pages_to_process` |
| Assembly.RecognizeImagesInOrder | app.py:53-56 | a batch whose images are pages `first, first+1, ...` succeeds exactly when each of those pages' OCR succeeds, and then yields each page number with that page's OCR text |
| Assembly.RecognizeSucceedsIff | api.py:61-69 | a run of batches succeeds exactly when every rasterization and the OCR of every covered page succeed |
| Assembly.RecognizeContent | api.py:65-69 | a successful run of batches yields, in order, each covered page with the text the OCR engine returned for it |
| Assembly.ExtractDoneIff | api.py:47-76 | a run succeeds exactly when the PDF opens, the batch size is not zero, every batch is rasterized, the OCR of every page `1..pages_to_process` succeeds and the write succeeds |
| Assembly.ExtractTranscript | api.py:54-72 | the text a successful run writes is the header followed by, for `k` from 1 to `pages_to_process`, page `k`'s delimiter and the OCR text of page `k` |
| Assembly.RunTranscript | app.py:48-56 | a successful run over pages `1..pages` yields, at position `k - 1`, page `k` with the text the OCR engine returned for its image |
| Assembly.TwelvePageRun | api.py:52-74 | a 12-page PDF with no limit and batches of 5, all engine calls succeeding, reports 12 pages and writes 12 segments numbered 1 to 12 |
| Script.ExtractPlain | main.py:18-39 | one run of the script; a successful run read the page count, used a non-zero step and wrote its text, and reports the limited page count, never more than the PDF has |
| Script.PlainConcat | main.py:34-36 | the plain texts of two runs of pages, one after the other, are the plain text of the joined run |
| Script.AppendPlainBatch | main.py:34-36 | the inner loop appends each image's OCR text and a blank line in order; its result is the first OCR failure or the extended text |
| Script.AppendPlainBatches | main.py:30-36 | the batch loop appends, batch after batch, the plain texts of the recognised pages; its result is the first failure or the extended text |
| Script.ExtractPlainText | main.py:18-39 | the script's loop returns exactly `ExtractPlain`: the exception that ends it, or the pages processed and the concatenated plain texts, written once at the end |
| Script.PlainAgreesWithNumbered | main.py:24-39 | the script fails when and with the message with which the web variants fail, processes the same pages in the same order, and differs only in laying out the recognised pages without header or delimiters |
| Script.ExtractPlainTranscript | main.py:30-36 | when the rasterizer returns each page's image in order, the script writes the OCR text of pages 1..`pages_to_process`, each followed by a blank line, and nothing else |
| Script.TwelvePages | main.py:30-31 | with no limit a 12-page PDF is rasterized as 1-5, 6-10, 11-12; with the shipped `MAX_PAGES = 10` as 1-5, 6-10 |
| Storage.UploadName | api.py:102 | the name the PDF is saved under: the upload id, `_`, then the name it is given (api.py: spaces made `_`; app.py: `secure_filename`'s result) unchanged, so it begins with the id and `_` (app.py:91 is the same) |
| Storage.OutputName | api.py:103 | the name the text is written to begins with the upload id and `_` and ends in `.txt`; for a name without a dot, `rsplit` keeps it whole and the text's name is the upload name followed by `.txt` (app.py:92 is the same) |
| Storage.OutputNameSwapsExtension | app.py:92 | for a name with a dot, the text's name is the saved PDF's name with its last extension replaced by `.txt` |
| Api.IsPdfName | api.py:95 | the `.lower().endswith('.pdf')` test: a name that passes has at least four characters, the fourth from the end being a dot |
| Api.StoredName | api.py:101 | the stored name has the length of the original; each space becomes `_` and every other character is kept, so no space remains |
| Api.LastDotOfPdfName | api.py:103 | in a name that ends in `.pdf` whatever the case, the last dot is the one before `pdf` |
| Api.PdfOutputName | api.py:101-103 | for an accepted upload, the text's name is the saved PDF's name with its four-character extension replaced by `.txt` |
| Api.ExtractTextFromPdf | api.py:71-76 | success exactly when the run succeeds; then `(True, pages_to_process, None)` and the text written under the output name; otherwise `(False, 0, message)` and nothing written |
| Api.ProcessUpload | api.py:98-135 | once the name has passed: the PDF is saved under `{file_id}_{name}` and is gone afterwards whatever the outcome; success replies with the page count and the text's name and leaves the text under that name; failure replies 500 with the message and writes nothing |
| Api.UploadFile | api.py:94-135 | a name not ending in `.pdf` gets 400 and leaves both folders untouched; otherwise the saved PDF is gone afterwards whatever the outcome, success replies with the page count and the text's name and leaves the text, failure replies 500 with the message and writes nothing |
| App.AllowedFile | app.py:26-27 | `allowed_file`: the extension after the last dot is `pdf` in any case, so in an allowed name the last dot is the fourth character from the end |
| App.AllowedFileIsPdfName | app.py:26-27 | `allowed_file` accepts exactly the names api.py's suffix test accepts, both directions |
| Strings.LiteralValue | app.py:86 | the value of the base-10 integer literal between the blanks `int()` skips (only a space and `\t\n\v\f\r`, not the separators 0x1C-0x1F that `strip()` removes): a value of only such blanks has none, a negative value needs a leading `-`, and a run of decimal digits between such blanks denotes its value |
| Strings.InvalidLiteral | app.py:86 | `int()`'s message for a value that is not a literal, with the repr cut to 200 characters as `%.200R` cuts it: never longer than 240 characters, and the whole quoted value for a value of at most 198 characters |
| Strings.ParseInt | app.py:86 | `int()` in base 10 under CPython's default limit of 4300 digits: a value of only blanks is refused with the invalid-literal message, a success has at most 4300 digits and is negative only after a leading `-`, and a run of decimal digits between `int()`'s blanks reads as its value when it has at most 4300 digits and is refused with the digit-limit message when it has more |
| Strings.ParseIntOfString | app.py:86 | `int(str(i))` is `i` when `str(abs(i))` has at most 4300 digits, and raises the digit-limit error naming the digit count when it has more |
| Strings.OverlongRefused | app.py:86 | `int()` refuses `"1" * n` for every `n` over 4300 with the digit-limit message naming `n` |
| Strings.ParseRefusesLeading | app.py:86 | `int()` refuses a value whose first character is not one of its blanks, a sign or a digit, with the invalid-literal message |
| App.ParseMaxPages | app.py:86 | a missing, empty or blank value means no limit, exactly; the parse fails exactly when the value is not blank and `int()` raises, and then carries `int()`'s message (an invalid literal or the 4300-digit limit) |
| App.SeparatorLimitRefused | app.py:86 | a `max_pages` of `"\x1c5"` passes the `strip()` test but `int()` refuses it, so the parse fails with `int()`'s message instead of giving a limit of 5 |
| App.MaxPagesRoundTrip | app.py:86 | a limit sent as the decimal text of `n` reads back as `n` when that text has at most 4300 digits, and otherwise fails with `int()`'s digit-limit message |
| App.OverlongLimitRefused | app.py:86 | a `max_pages` of more than 4300 ones fails with `int()`'s digit-limit message, so the upload answers 500 instead of running with that limit |
| App.ExtractTextFromPdf | app.py:58-63 | `(True, pages_to_process)` with the text written when the run succeeds, `(False, message)` with nothing written otherwise |
| App.ProcessUpload | app.py:88-120 | an accepted upload is saved under `{file_id}_{name}`; on success the PDF stays, the text is written and the reply carries the page count, the id and the text's name; on failure the PDF is deleted, nothing is written and the reply is 500 with the message |
| App.UploadFile | app.py:70-123 | the missing-file, empty-name and wrong-type checks answer 400 and a bad `max_pages` 500, all with both folders untouched; otherwise success keeps the saved PDF and adds the text, and failure deletes the PDF, writes nothing and answers 500 with the message |
| App.Unprefixed | app.py:148-150 | what a cleanup leaves of a folder: only names that were there, none of them starting with the id, each with its content |
| App.CleanFolder | app.py:148-150 | the loop over a folder's listing leaves exactly the entries whose names do not start with the id |
| App.CleanupFiles | app.py:147-150 | both folders lose exactly the files whose names start with the id and keep every other file unchanged |
| App.UnprefixedExactly | app.py:149-150 | a name survives cleanup exactly when it was present and does not start with the id, and its content is unchanged |
| App.CleanupRemovesUpload | app.py:142-150 | a cleanup by an upload's id removes both files that upload created |
| App.CleanupIdempotent | app.py:147-150 | a second cleanup by the same id changes nothing |

## Left out

- HTTP shells are not modelled: routing, CORS, static files, the index page, `download_file` and `health_check`. Neither are multipart parsing, the 50 MB request limit, or FastAPI's own 422 answer for a `max_pages` that is not an integer.
- The PDF reader, the rasterizer, the OCR engine and the clock are the fields of `Assembly.Engines`. Their behaviour is only what the theorems' preconditions assume.
- `secure_filename`, `uuid.uuid4()` and `datetime.now()` are parameters: `secure`, `fileId` and `e.date`.
- The folders are maps from names to contents. Saving the upload and deleting files are map updates that cannot fail.
- Api.UploadFile: does not model the "Server error" branch (api.py:139-140). That branch answers an exception raised while generating the id or saving the upload.
- App.UploadFile: of the "Server error" branch (app.py:122-123), models only a `max_pages` that `int()` rejects. It leaves out exceptions from `secure_filename` and from saving.
- App.CleanupFiles: does not model the 500 answer when listing or removing a file fails, nor the JSON reply.
- A write that fails after writing part of the file is not modelled. A failed write is modelled as writing nothing.
- Strings.InvalidLiteral: does not model `repr`'s choice of quotes or its escaping of special characters; the 200-character cut is applied to the repr as modelled.
- Strings.ParseInt: the digit limit is CPython's default of 4300 (from 3.11, and in the 3.7.14, 3.8.14, 3.9.14 and 3.10.7 security releases). Changing it through `sys.set_int_max_str_digits`, `PYTHONINTMAXSTRDIGITS` or `-X int_max_str_digits`, and older interpreters without the limit, are not modelled.
- Strings.ParseInt: for a value that is not a literal but whose run of digits before the first bad character already exceeds the limit, CPython may report the digit-limit message; the model reports the invalid-literal message. Both raise `ValueError`, so only the text of the 500 answer differs.
- Strings.Lower, Strings.Strip and Strings.StripForInt: work on ASCII only. Python's versions follow Unicode. `int()`'s acceptance of non-ASCII digits is also not modelled.
- `pages_per_batch` is a natural number. A negative step is not modelled, since every caller passes 5. A step of 0 is modelled as the `ValueError` `range` raises.
- Console `print` progress messages are not modelled.
- main.py's fixed input and output paths are not modelled: the script's result is the text it writes.
- `docs/script.js` and `static/script.js` (the browser front ends) are not part of this model.
