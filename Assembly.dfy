/** `extract_text_from_pdf` of the two web variants (api.py and app.py carry the same
    body): count the pages, apply the limit, rasterize batch by batch, OCR every image,
    and assemble the header and one `--- Page k ---` segment per page into the text
    that is written once, at the end. */
module Assembly {
  import opened Common
  import opened Strings
  import opened Batching

  /** One page of OCR output: its 1-based number and the engine's text. */
  datatype PageText = PageText(number: int, text: string)

  /** The code the pipeline calls but does not contain. Each call either returns a
      value or raises; a `Failure` carries the exception's message.
      - `pageCount`: `len(PdfReader(pdf_path).pages)`
      - `rasterize(first, last)`: `convert_from_path(pdf_path, first_page=first, last_page=last)`
      - `ocr(image, lang)`: `pytesseract.image_to_string(image, lang=lang)`
      - `writeError`: the exception, if any, raised writing the text to `output_path`
      - `date`: `datetime.now().strftime('%Y-%m-%d %H:%M:%S')` */
  datatype Engines<!Img> = Engines(
    pageCount: Result<nat>,
    rasterize: (int, int) -> Result<seq<Img>>,
    ocr: (Img, string) -> Result<string>,
    writeError: Option<string>,
    date: string)

  /** The end of a run: the pages processed and the text written to the output file,
      or the message of the exception that stopped it (nothing is written then). */
  datatype Outcome = Done(pagesProcessed: int, written: string) | Failed(message: string)

  /** What `range(1, n, 0)` raises. */
  const ZeroStepError := "range() arg 3 must not be zero"

  /** The run header: title, page counts, language, date, a rule of 80 `=`, a blank
      line. It opens with the title line and closes with the rule and the blank line. */
  function Header(totalPages: nat, pages: int, lang: string, date: string): (h: string)
    ensures |h| >= 23 + 82
    ensures h[..23] == "OCR Extraction Results\n"
    ensures h[|h| - 82..] == Repeat('=', 80) + "\n\n"
  {
    var title := "OCR Extraction Results\n";
    var fields := "Total pages in PDF: " + NatToString(totalPages) + "\n"
      + "Pages processed: " + IntToString(pages) + "\n"
      + "Language: " + lang + "\n"
      + "Date: " + date + "\n";
    var rule := Repeat('=', 80) + "\n\n";
    ConcatParts(title, fields, rule);
    title + fields + rule
  }

  /** The line that opens page `number`'s segment: `--- Page `, the number and ` ---`
      on a line of their own, followed by a blank line. */
  function Delimiter(number: int): (d: string)
    ensures |d| >= 17
    ensures d[..10] == "\n--- Page " && d[|d| - 6..] == " ---\n\n"
  {
    var digits := IntToString(number);
    ConcatParts("\n--- Page ", digits, " ---\n\n");
    "\n--- Page " + digits + " ---\n\n"
  }

  /** The digits between `--- Page ` and ` ---` denote the page's number, so
      distinct pages get distinct delimiters. */
  lemma DelimiterNumber(number: int)
    ensures var d := Delimiter(number);
      LiteralValue(d[10..|d| - 6]) == Some(number)
  {
    var digits := IntToString(number);
    IntToStringRoundTrip(number);
    ConcatParts("\n--- Page ", digits, " ---\n\n");
  }

  /** One page in the output: its delimiter, then its text, then a newline. */
  function Segment(page: PageText): (s: string)
    ensures |Delimiter(page.number)| < |s|
    ensures s[..|Delimiter(page.number)|] == Delimiter(page.number)
    ensures s[|Delimiter(page.number)|..|s| - 1] == page.text && s[|s| - 1] == '\n'
  {
    var d := Delimiter(page.number);
    ConcatParts(d, page.text, "\n");
    d + page.text + "\n"
  }

  /** The page segments, one after another in the order of `pages`. */
  function Render(pages: seq<PageText>): string {
    if pages == [] then "" else Render(pages[..|pages| - 1]) + Segment(pages[|pages| - 1])
  }

  /** The page numbers of the delimiters, in order. */
  function Numbers(pages: seq<PageText>): seq<int> {
    seq(|pages|, i requires 0 <= i < |pages| => pages[i].number)
  }

  /** The OCR of one batch's images, numbered from `first` as
      `enumerate(pages, start=first)` numbers them; the first failing call ends it.
      On success image `i` becomes page `first + i` with its OCR text; a failure is
      the error of the first OCR call that failed. */
  function RecognizeImages<Img>(images: seq<Img>, first: int, ocr: (Img, string) -> Result<string>, lang: string)
    : (r: Result<seq<PageText>>)
    ensures r.Success? ==>
      && |r.value| == |images|
      && forall i :: 0 <= i < |images| ==> r.value[i].number == first + i && ocr(images[i], lang) == Success(r.value[i].text)
  {
    if images == [] then Success([])
    else
      var n := |images| - 1;
      var prior := RecognizeImages(images[..n], first, ocr, lang);
      if prior.Failure? then prior
      else
        var text := ocr(images[n], lang);
        if text.Failure? then Failure(text.error)
        else Success(prior.value + [PageText(first + n, text.value)])
  }

  /** The batch is rasterized and the OCR of each of its images succeeds. */
  predicate BatchRecognized<Img>(b: Batch, e: Engines<Img>, lang: string) {
    var images := e.rasterize(b.first, b.last);
    images.Success? && RecognizeImages(images.value, b.first, e.ocr, lang).Success?
  }

  /** The OCR of a sequence of batches, batch after batch; the first failing
      rasterization or OCR call ends it. */
  function Recognize<Img>(bs: seq<Batch>, e: Engines<Img>, lang: string): Result<seq<PageText>> {
    if bs == [] then Success([])
    else
      var n := |bs| - 1;
      var prior := Recognize(bs[..n], e, lang);
      if prior.Failure? then prior
      else
        var images := e.rasterize(bs[n].first, bs[n].last);
        if images.Failure? then Failure(images.error)
        else
          var pages := RecognizeImages(images.value, bs[n].first, e.ocr, lang);
          if pages.Failure? then Failure(pages.error)
          else Success(prior.value + pages.value)
  }

  /** One run of `extract_text_from_pdf` with `pages_per_batch = size`. A run that
      succeeds has read the page count, used a non-zero step and written its text; it
      reports the limited page count, never more than the PDF has, and its text opens
      with the header. */
  function Extract<Img>(e: Engines<Img>, lang: string, size: nat, maxPages: Option<int>): (o: Outcome)
    ensures o.Done? ==>
      && e.pageCount.Success? && size >= 1 && e.writeError.None?
      && o.pagesProcessed == PagesToProcess(e.pageCount.value, maxPages) <= e.pageCount.value
      && var header := Header(e.pageCount.value, o.pagesProcessed, lang, e.date);
         |header| <= |o.written| && o.written[..|header|] == header
  {
    if e.pageCount.Failure? then Failed(e.pageCount.error)
    else
      var total := e.pageCount.value;
      var pages := PagesToProcess(total, maxPages);
      if size == 0 then Failed(ZeroStepError)
      else
        var recognized := Recognize(Batches(pages, size), e, lang);
        if recognized.Failure? then Failed(recognized.error)
        else if e.writeError.Some? then Failed(e.writeError.value)
        else
          var header := Header(total, pages, lang, e.date);
          assert (header + Render(recognized.value))[..|header|] == header;
          Done(pages, header + Render(recognized.value))
  }

  lemma {:induction false} RecognizeImagesFailureSticks<Img>(
    images: seq<Img>, more: seq<Img>, first: int, ocr: (Img, string) -> Result<string>, lang: string)
    requires RecognizeImages(images, first, ocr, lang).Failure?
    ensures RecognizeImages(images + more, first, ocr, lang) == RecognizeImages(images, first, ocr, lang)
    decreases |more|
  {
    if more == [] {
      assert images + more == images;
    } else {
      var shorter := more[..|more| - 1];
      RecognizeImagesFailureSticks(images, shorter, first, ocr, lang);
      assert (images + more)[..|images + more| - 1] == images + shorter;
    }
  }

  /** A batch fails exactly with the error of its first failing OCR call: every image
      before it was recognised. */
  lemma {:induction false} RecognizeImagesFirstFailure<Img>(
    images: seq<Img>, first: int, ocr: (Img, string) -> Result<string>, lang: string)
    ensures var r := RecognizeImages(images, first, ocr, lang);
      r.Failure? ==>
        exists i :: 0 <= i < |images| && ocr(images[i], lang) == Failure(r.error)
          && forall j :: 0 <= j < i ==> ocr(images[j], lang).Success?
    decreases |images|
  {
    var r := RecognizeImages(images, first, ocr, lang);
    if r.Failure? {
      var n := |images| - 1;
      var prior := RecognizeImages(images[..n], first, ocr, lang);
      if prior.Failure? {
        RecognizeImagesFirstFailure(images[..n], first, ocr, lang);
        var i :| 0 <= i < n && ocr(images[..n][i], lang) == Failure(prior.error)
          && forall j :: 0 <= j < i ==> ocr(images[..n][j], lang).Success?;
        assert images[..n][i] == images[i];
        assert forall j :: 0 <= j < i ==> images[..n][j] == images[j];
      } else {
        assert forall j :: 0 <= j < n ==> images[..n][j] == images[j];
      }
    }
  }

  lemma {:induction false} RecognizeFailureSticks<Img>(bs: seq<Batch>, more: seq<Batch>, e: Engines<Img>, lang: string)
    requires Recognize(bs, e, lang).Failure?
    ensures Recognize(bs + more, e, lang) == Recognize(bs, e, lang)
    decreases |more|
  {
    if more == [] {
      assert bs + more == bs;
    } else {
      var shorter := more[..|more| - 1];
      RecognizeFailureSticks(bs, shorter, e, lang);
      assert (bs + more)[..|bs + more| - 1] == bs + shorter;
    }
  }

  lemma RenderAppend(pages: seq<PageText>, page: PageText)
    ensures Render(pages + [page]) == Render(pages) + Segment(page)
  {
    assert (pages + [page])[..|pages|] == pages;
  }

  lemma {:induction false} RenderConcat(a: seq<PageText>, b: seq<PageText>)
    ensures Render(a + b) == Render(a) + Render(b)
    decreases |b|
  {
    if b == [] {
      assert a + b == a;
    } else {
      var n := |b| - 1;
      RenderConcat(a, b[..n]);
      SplitLast(a, b);
      RenderAppend(a + b[..n], b[n]);
      RenderAppend(b[..n], b[n]);
      ConcatAssoc(Render(a), Render(b[..n]), Segment(b[n]));
    }
  }

  /** Appending a delimiter, then the text, then a newline appends one segment. */
  lemma AppendSegment(text: string, pages: seq<PageText>, page: PageText)
    ensures text + Render(pages) + Delimiter(page.number) + page.text + "\n" == text + Render(pages + [page])
  {
    var before := text + Render(pages);
    RenderAppend(pages, page);
    ConcatAssoc(before, Delimiter(page.number), page.text);
    ConcatAssoc(before, Delimiter(page.number) + page.text, "\n");
    ConcatAssoc(text, Render(pages), Segment(page));
  }

  /** The OCR of image `i` either extends the batch's pages by page `first + i` or
      is the failure of the whole batch. */
  lemma RecognizeImagesStep<Img>(images: seq<Img>, i: nat, first: int, pages: seq<PageText>,
                                 ocr: (Img, string) -> Result<string>, lang: string)
    requires i < |images|
    requires RecognizeImages(images[..i], first, ocr, lang) == Success(pages)
    ensures ocr(images[i], lang).Success? ==>
      RecognizeImages(images[..i + 1], first, ocr, lang) == Success(pages + [PageText(first + i, ocr(images[i], lang).value)])
    ensures ocr(images[i], lang).Failure? ==>
      RecognizeImages(images, first, ocr, lang) == Failure(ocr(images[i], lang).error)
  {
    assert images[..i + 1][..i] == images[..i];
    if ocr(images[i], lang).Failure? {
      RecognizeImagesFailureSticks(images[..i + 1], images[i + 1..], first, ocr, lang);
      assert images[..i + 1] + images[i + 1..] == images;
    }
  }

  /** The next batch either extends the pages recognised so far or its failure is
      the failure of every run that goes on to `rest`. */
  lemma RecognizeStep<Img>(done: seq<Batch>, batch: Batch, rest: seq<Batch>, pages: seq<PageText>,
                           e: Engines<Img>, lang: string)
    requires Recognize(done, e, lang) == Success(pages)
    ensures var images := e.rasterize(batch.first, batch.last);
      images.Failure? ==> Recognize(done + [batch] + rest, e, lang) == Failure(images.error)
    ensures var images := e.rasterize(batch.first, batch.last);
      images.Success? ==>
        var batchPages := RecognizeImages(images.value, batch.first, e.ocr, lang);
        && (batchPages.Failure? ==> Recognize(done + [batch] + rest, e, lang) == Failure(batchPages.error))
        && (batchPages.Success? ==> Recognize(done + [batch], e, lang) == Success(pages + batchPages.value))
  {
    assert (done + [batch])[..|done|] == done;
    if Recognize(done + [batch], e, lang).Failure? {
      RecognizeFailureSticks(done + [batch], rest, e, lang);
    }
  }

  /** The inner loop over one batch, `for page_num, page in enumerate(pages, start=first)`:
      each image's delimiter and OCR text are appended to `text`, and the first OCR
      failure ends it. */
  method AppendBatch<Img>(text: string, images: seq<Img>, first: int, ocr: (Img, string) -> Result<string>, lang: string)
    returns (r: Result<string>)
    ensures var pages := RecognizeImages(images, first, ocr, lang);
      r == if pages.Failure? then Failure(pages.error) else Success(text + Render(pages.value))
  {
    var fullText := text;
    ghost var batchPages: seq<PageText> := [];
    var i := 0;
    while i < |images|
      invariant 0 <= i <= |images|
      invariant RecognizeImages(images[..i], first, ocr, lang) == Success(batchPages)
      invariant fullText == text + Render(batchPages)
    {
      var pageNum := first + i;
      fullText := fullText + Delimiter(pageNum);
      var pageText := ocr(images[i], lang);
      RecognizeImagesStep(images, i, first, batchPages, ocr, lang);
      if pageText.Failure? {
        return Failure(pageText.error);
      }
      fullText := fullText + pageText.value + "\n";
      AppendSegment(text, batchPages, PageText(pageNum, pageText.value));
      batchPages := batchPages + [PageText(pageNum, pageText.value)];
      i := i + 1;
    }
    assert images[..i] == images;
    return Success(fullText);
  }

  /** Taking the next batch off the batches still to do. */
  lemma NextBatch(done: seq<Batch>, start: int, pages: int, size: nat)
    requires size >= 1 && start <= pages
    requires done + BatchesFrom(start, pages, size) == Batches(pages, size)
    ensures done + [Batch(start, Min(start + size - 1, pages))] + BatchesFrom(start + size, pages, size) == Batches(pages, size)
  {
    var batch := Batch(start, Min(start + size - 1, pages));
    var rest := BatchesFrom(start + size, pages, size);
    assert BatchesFrom(start, pages, size) == [batch] + rest;
    ConcatAssoc(done, [batch], rest);
  }

  /** One step of the batch loop: the next batch's failure is the run's failure, and
      its success extends the batches done and the pages recognised. */
  lemma AdvanceBatches<Img>(done: seq<Batch>, start: int, pages: int, size: nat, recognized: seq<PageText>,
                            e: Engines<Img>, lang: string)
    requires size >= 1 && start <= pages
    requires done + BatchesFrom(start, pages, size) == Batches(pages, size)
    requires Recognize(done, e, lang) == Success(recognized)
    ensures var batch := Batch(start, Min(start + size - 1, pages));
      var images := e.rasterize(batch.first, batch.last);
      var whole := Recognize(Batches(pages, size), e, lang);
      && (images.Failure? ==> whole == Failure(images.error))
      && (images.Success? ==>
            var batchPages := RecognizeImages(images.value, start, e.ocr, lang);
            && (batchPages.Failure? ==> whole == Failure(batchPages.error))
            && (batchPages.Success? ==>
                  && (done + [batch]) + BatchesFrom(start + size, pages, size) == Batches(pages, size)
                  && Recognize(done + [batch], e, lang) == Success(recognized + batchPages.value)))
  {
    var batch := Batch(start, Min(start + size - 1, pages));
    var rest := BatchesFrom(start + size, pages, size);
    NextBatch(done, start, pages, size);
    RecognizeStep(done, batch, rest, recognized, e, lang);
  }

  /** Appending the segments of more pages to a text that ends with the segments of
      the pages so far. */
  lemma AppendRendered(text: string, pages: seq<PageText>, more: seq<PageText>)
    ensures text + Render(pages) + Render(more) == text + Render(pages + more)
  {
    RenderConcat(pages, more);
    ConcatAssoc(text, Render(pages), Render(more));
  }

  /** The batch loop `for start in range(1, pages + 1, size)`: each batch is
      rasterized and its pages appended to `text`; the first failing rasterization or
      OCR call ends it. */
  method AppendBatches<Img>(text: string, e: Engines<Img>, lang: string, size: nat, pages: int)
    returns (r: Result<string>)
    requires size >= 1
    ensures var recognized := Recognize(Batches(pages, size), e, lang);
      r == if recognized.Failure? then Failure(recognized.error) else Success(text + Render(recognized.value))
  {
    var fullText := text;
    ghost var done: seq<Batch> := [];
    ghost var recognized: seq<PageText> := [];
    var start := 1;
    while start <= pages
      invariant done + BatchesFrom(start, pages, size) == Batches(pages, size)
      invariant Recognize(done, e, lang) == Success(recognized)
      invariant fullText == text + Render(recognized)
      decreases pages + 1 - start
    {
      var end := Min(start + size - 1, pages);
      var images := e.rasterize(start, end);
      if images.Failure? {
        assert Recognize(Batches(pages, size), e, lang) == Failure(images.error) by {
          AdvanceBatches(done, start, pages, size, recognized, e, lang);
        }
        return Failure(images.error);
      }
      var appended := AppendBatch(fullText, images.value, start, e.ocr, lang);
      if appended.Failure? {
        assert Recognize(Batches(pages, size), e, lang) == Failure(appended.error) by {
          AdvanceBatches(done, start, pages, size, recognized, e, lang);
        }
        return Failure(appended.error);
      }
      ghost var batchPages := RecognizeImages(images.value, start, e.ocr, lang).value;
      assert && done + [Batch(start, end)] + BatchesFrom(start + size, pages, size) == Batches(pages, size)
             && Recognize(done + [Batch(start, end)], e, lang) == Success(recognized + batchPages) by {
        AdvanceBatches(done, start, pages, size, recognized, e, lang);
      }
      assert appended.value == text + Render(recognized + batchPages) by {
        AppendRendered(text, recognized, batchPages);
      }
      fullText := appended.value;
      done := done + [Batch(start, end)];
      recognized := recognized + batchPages;
      start := start + size;
    }
    assert done == Batches(pages, size);
    return Success(fullText);
  }

  /** `extract_text_from_pdf` of api.py and app.py: the header, then every batch's
      page segments, and one write at the end. Any exception ends the run with its
      message. */
  method ExtractText<Img>(e: Engines<Img>, lang: string, size: nat, maxPages: Option<int>) returns (o: Outcome)
    ensures o == Extract(e, lang, size, maxPages)
  {
    if e.pageCount.Failure? {
      return Failed(e.pageCount.error);
    }
    var total := e.pageCount.value;
    var pages := PagesToProcess(total, maxPages);
    var fullText := Header(total, pages, lang, e.date);
    if size == 0 {
      return Failed(ZeroStepError);
    }
    var appended := AppendBatches(fullText, e, lang, size, pages);
    if appended.Failure? {
      return Failed(appended.error);
    }
    if e.writeError.Some? {
      return Failed(e.writeError.value);
    }
    return Done(pages, appended.value);
  }

  /** The assumption under which the output has one segment per page: the
      rasterizer returns one image for every page of the range it is asked for. */
  ghost predicate ImageCountsMatch<Img>(rasterize: (int, int) -> Result<seq<Img>>) {
    forall first, last :: first <= last && rasterize(first, last).Success? ==>
      |rasterize(first, last).value| == last - first + 1
  }

  /** The stronger assumption under which the text of each page is known: the
      rasterizer returns, in order, the image `render(k)` of each page `k` it is asked for. */
  ghost predicate RastersInOrder<Img>(rasterize: (int, int) -> Result<seq<Img>>, render: int -> Img) {
    forall first, last :: first <= last && rasterize(first, last).Success? ==>
      && |rasterize(first, last).value| == last - first + 1
      && forall i :: 0 <= i < |rasterize(first, last).value| ==> rasterize(first, last).value[i] == render(first + i)
  }

  lemma FlattenSnoc(init: seq<Batch>, b: Batch)
    ensures Flatten(init + [b]) == Flatten(init) + PagesOf(b)
  {
    FlattenAppend(init, [b]);
    assert [b][1..] == [];
  }

  lemma NumbersConcat(a: seq<PageText>, b: seq<PageText>)
    ensures Numbers(a + b) == Numbers(a) + Numbers(b)
  {
  }

  /** A recognised batch of as many images as pages is numbered by those pages. */
  lemma BatchNumbers<Img>(b: Batch, e: Engines<Img>, lang: string)
    requires ImageCountsMatch(e.rasterize)
    requires b.first <= b.last && BatchRecognized(b, e, lang)
    ensures Numbers(RecognizeImages(e.rasterize(b.first, b.last).value, b.first, e.ocr, lang).value) == PagesOf(b)
  {
  }

  /** Without the image-count assumption nothing ties a page number to a page: the
      numbering restarts at each batch's first page whatever the images are. With it,
      the numbers are exactly the pages the batches cover, in order. */
  lemma {:induction false} RecognizeNumbers<Img>(bs: seq<Batch>, e: Engines<Img>, lang: string)
    requires ImageCountsMatch(e.rasterize)
    requires forall j :: 0 <= j < |bs| ==> bs[j].first <= bs[j].last
    ensures var r := Recognize(bs, e, lang);
      r.Success? ==> |r.value| == |Flatten(bs)| && forall i :: 0 <= i < |r.value| ==> r.value[i].number == Flatten(bs)[i]
    decreases |bs|
  {
    var r := Recognize(bs, e, lang);
    if bs != [] && r.Success? {
      var n := |bs| - 1;
      var init, b := bs[..n], bs[n];
      assert bs == init + [b];
      RecognizeNumbers(init, e, lang);
      FlattenSnoc(init, b);
      var prior := Recognize(init, e, lang).value;
      var batchPages := RecognizeImages(e.rasterize(b.first, b.last).value, b.first, e.ocr, lang).value;
      assert r.value == prior + batchPages;
      assert Numbers(prior) == Flatten(init);
      BatchNumbers(b, e, lang);
      NumbersConcat(prior, batchPages);
      assert Numbers(r.value) == Flatten(bs);
    }
  }

  /** The page-numbering theorem. When the rasterizer returns one image per requested
      page, a successful run writes the header followed by exactly `pages_to_process`
      segments, numbered 1, 2, ..., `pages_to_process` in that order, and reports
      `pages_to_process` pages. */
  lemma ExtractPageNumbers<Img>(e: Engines<Img>, lang: string, size: nat, maxPages: Option<int>)
    requires ImageCountsMatch(e.rasterize)
    ensures var o := Extract(e, lang, size, maxPages);
      o.Done? ==>
        && e.pageCount.Success? && size >= 1
        && var pages := PagesToProcess(e.pageCount.value, maxPages);
           var recognized := Recognize(Batches(pages, size), e, lang);
           && recognized.Success?
           && o.pagesProcessed == pages
           && o.written == Header(e.pageCount.value, pages, lang, e.date) + Render(recognized.value)
           && Numbers(recognized.value) == Span(1, pages)
  {
    var o := Extract(e, lang, size, maxPages);
    if o.Done? {
      var pages := PagesToProcess(e.pageCount.value, maxPages);
      BatchesPartition(pages, size);
      RecognizeNumbers(Batches(pages, size), e, lang);
    }
  }

  lemma SpanMember(lo: int, hi: int, k: int)
    ensures k in Span(lo, hi) <==> lo <= k <= hi
  {
    if lo <= k <= hi {
      assert Span(lo, hi)[k - lo] == k;
    }
  }

  lemma {:induction false} RecognizeImagesInOrder<Img>(
    images: seq<Img>, first: int, ocr: (Img, string) -> Result<string>, lang: string, render: int -> Img)
    requires forall i :: 0 <= i < |images| ==> images[i] == render(first + i)
    ensures var r := RecognizeImages(images, first, ocr, lang);
      && (r.Success? <==> forall k :: first <= k < first + |images| ==> ocr(render(k), lang).Success?)
      && (r.Success? ==>
            && |r.value| == |images|
            && forall i :: 0 <= i < |r.value| ==>
                 r.value[i].number == first + i && ocr(render(first + i), lang) == Success(r.value[i].text))
    decreases |images|
  {
    if images != [] {
      var n := |images| - 1;
      RecognizeImagesInOrder(images[..n], first, ocr, lang, render);
      assert images[n] == render(first + n);
    }
  }

  /** A run extended by one batch succeeds exactly when the run did and the batch is
      recognised. */
  lemma RecognizeSnoc<Img>(init: seq<Batch>, b: Batch, e: Engines<Img>, lang: string)
    ensures Recognize(init + [b], e, lang).Success? <==> Recognize(init, e, lang).Success? && BatchRecognized(b, e, lang)
  {
    assert (init + [b])[..|init|] == init;
  }

  /** A run succeeds exactly when every one of its batches is rasterized and
      recognised. */
  lemma {:induction false} RecognizeEveryBatch<Img>(bs: seq<Batch>, e: Engines<Img>, lang: string)
    ensures Recognize(bs, e, lang).Success? <==> forall j :: 0 <= j < |bs| ==> BatchRecognized(bs[j], e, lang)
    decreases |bs|
  {
    if bs != [] {
      var n := |bs| - 1;
      assert bs == bs[..n] + [bs[n]];
      RecognizeEveryBatch(bs[..n], e, lang);
      RecognizeSnoc(bs[..n], bs[n], e, lang);
      assert forall j :: 0 <= j < n ==> bs[..n][j] == bs[j];
    }
  }

  /** A batch whose images are its pages in order is recognised exactly when it is
      rasterized and the OCR of each of its pages succeeds. */
  lemma BatchSucceedsIff<Img>(b: Batch, e: Engines<Img>, lang: string, render: int -> Img)
    requires RastersInOrder(e.rasterize, render) && b.first <= b.last
    ensures BatchRecognized(b, e, lang) <==>
      e.rasterize(b.first, b.last).Success? && forall k :: b.first <= k <= b.last ==> e.ocr(render(k), lang).Success?
  {
    var images := e.rasterize(b.first, b.last);
    if images.Success? {
      RecognizeImagesInOrder(images.value, b.first, e.ocr, lang, render);
    }
  }

  /** Each run of batches succeeds exactly when every rasterization and the OCR of
      every covered page succeeds. */
  lemma {:induction false} RecognizeSucceedsIff<Img>(bs: seq<Batch>, e: Engines<Img>, lang: string, render: int -> Img)
    requires RastersInOrder(e.rasterize, render)
    requires forall j :: 0 <= j < |bs| ==> bs[j].first <= bs[j].last
    ensures Recognize(bs, e, lang).Success? <==>
      && (forall j :: 0 <= j < |bs| ==> e.rasterize(bs[j].first, bs[j].last).Success?)
      && (forall k :: k in Flatten(bs) ==> e.ocr(render(k), lang).Success?)
    decreases |bs|
  {
    if bs != [] {
      var n := |bs| - 1;
      var init, b := bs[..n], bs[n];
      assert bs == init + [b];
      RecognizeSucceedsIff(init, e, lang, render);
      RecognizeSnoc(init, b, e, lang);
      BatchSucceedsIff(b, e, lang, render);
      FlattenSnoc(init, b);
      forall k ensures k in Flatten(bs) <==> k in Flatten(init) || b.first <= k <= b.last {
        SpanMember(b.first, b.last, k);
      }
      forall j | 0 <= j < |init| ensures init[j] == bs[j] { }
    }
  }

  /** `pages` carries the page numbers `numbers`, in order, each with the text the OCR
      engine returns for that page's image. */
  ghost predicate Transcribes<Img>(pages: seq<PageText>, numbers: seq<int>, ocr: (Img, string) -> Result<string>,
                                   lang: string, render: int -> Img) {
    && |pages| == |numbers|
    && forall i :: 0 <= i < |pages| ==>
         pages[i].number == numbers[i] && ocr(render(numbers[i]), lang) == Success(pages[i].text)
  }

  lemma TranscribesConcat<Img>(a: seq<PageText>, an: seq<int>, b: seq<PageText>, bn: seq<int>,
                               ocr: (Img, string) -> Result<string>, lang: string, render: int -> Img)
    requires Transcribes(a, an, ocr, lang, render) && Transcribes(b, bn, ocr, lang, render)
    ensures Transcribes(a + b, an + bn, ocr, lang, render)
  {
    forall i | 0 <= i < |a + b|
      ensures (a + b)[i].number == (an + bn)[i] && ocr(render((an + bn)[i]), lang) == Success((a + b)[i].text)
    {
      if i >= |a| {
        assert (a + b)[i] == b[i - |a|] && (an + bn)[i] == bn[i - |a|];
      } else {
        assert (a + b)[i] == a[i] && (an + bn)[i] == an[i];
      }
    }
  }

  /** A recognised batch whose images are its pages in order transcribes those pages. */
  lemma BatchTranscribes<Img>(b: Batch, e: Engines<Img>, lang: string, render: int -> Img)
    requires RastersInOrder(e.rasterize, render)
    requires b.first <= b.last && BatchRecognized(b, e, lang)
    ensures Transcribes(RecognizeImages(e.rasterize(b.first, b.last).value, b.first, e.ocr, lang).value,
                        PagesOf(b), e.ocr, lang, render)
  {
    var images := e.rasterize(b.first, b.last).value;
    var pages := RecognizeImages(images, b.first, e.ocr, lang).value;
    forall i | 0 <= i < |pages|
      ensures pages[i].number == PagesOf(b)[i] && e.ocr(render(PagesOf(b)[i]), lang) == Success(pages[i].text)
    {
      assert images[i] == render(b.first + i);
    }
  }

  /** A successful run of batches yields, in order, each covered page with the text
      the OCR engine returned for it. */
  lemma {:induction false} RecognizeContent<Img>(bs: seq<Batch>, e: Engines<Img>, lang: string, render: int -> Img)
    requires RastersInOrder(e.rasterize, render)
    requires forall j :: 0 <= j < |bs| ==> bs[j].first <= bs[j].last
    ensures var r := Recognize(bs, e, lang);
      r.Success? ==>
        && |r.value| == |Flatten(bs)|
        && forall i :: 0 <= i < |r.value| ==>
             r.value[i].number == Flatten(bs)[i] && e.ocr(render(Flatten(bs)[i]), lang) == Success(r.value[i].text)
    decreases |bs|
  {
    var r := Recognize(bs, e, lang);
    if bs != [] && r.Success? {
      var n := |bs| - 1;
      var init, b := bs[..n], bs[n];
      assert bs == init + [b];
      RecognizeContent(init, e, lang, render);
      FlattenSnoc(init, b);
      var prior := Recognize(init, e, lang).value;
      var batchPages := RecognizeImages(e.rasterize(b.first, b.last).value, b.first, e.ocr, lang).value;
      assert r.value == prior + batchPages;
      assert Transcribes(prior, Flatten(init), e.ocr, lang, render);
      BatchTranscribes(b, e, lang, render);
      TranscribesConcat(prior, Flatten(init), batchPages, PagesOf(b), e.ocr, lang, render);
    }
  }

  /** When the rasterizer returns each requested page's image in order, a run
      succeeds exactly when the PDF opens, the batch size is not zero, every batch is
      rasterized, the OCR of every page `1..pages_to_process` succeeds and the write
      succeeds. */
  lemma ExtractDoneIff<Img>(e: Engines<Img>, lang: string, size: nat, maxPages: Option<int>, render: int -> Img)
    requires RastersInOrder(e.rasterize, render)
    ensures Extract(e, lang, size, maxPages).Done? <==>
      && e.pageCount.Success?
      && size >= 1
      && var bs := Batches(PagesToProcess(e.pageCount.value, maxPages), size);
         && (forall j :: 0 <= j < |bs| ==> e.rasterize(bs[j].first, bs[j].last).Success?)
         && (forall k :: 1 <= k <= PagesToProcess(e.pageCount.value, maxPages) ==> e.ocr(render(k), lang).Success?)
         && e.writeError.None?
  {
    if e.pageCount.Success? && size >= 1 {
      var pages := PagesToProcess(e.pageCount.value, maxPages);
      var bs := Batches(pages, size);
      BatchesPartition(pages, size);
      RecognizeSucceedsIff(bs, e, lang, render);
      forall k ensures k in Flatten(bs) <==> 1 <= k <= pages {
        SpanMember(1, pages, k);
      }
    }
  }

  /** The content theorem. When the rasterizer returns each requested page's image in
      order, the text a successful run writes is the header followed by, for each page
      `k` from 1 to `pages_to_process`, the delimiter of page `k` and the text the OCR
      engine returned for page `k`. */
  lemma ExtractTranscript<Img>(e: Engines<Img>, lang: string, size: nat, maxPages: Option<int>, render: int -> Img)
    requires RastersInOrder(e.rasterize, render)
    ensures var o := Extract(e, lang, size, maxPages);
      o.Done? ==>
        && e.pageCount.Success? && size >= 1
        && var pages := PagesToProcess(e.pageCount.value, maxPages);
           var recognized := Recognize(Batches(pages, size), e, lang);
           && recognized.Success?
           && o.pagesProcessed == pages
           && o.written == Header(e.pageCount.value, pages, lang, e.date) + Render(recognized.value)
           && |recognized.value| == (if pages < 0 then 0 else pages)
           && forall i :: 0 <= i < |recognized.value| ==>
                recognized.value[i].number == i + 1 && e.ocr(render(i + 1), lang) == Success(recognized.value[i].text)
  {
    var o := Extract(e, lang, size, maxPages);
    if o.Done? {
      var pages := PagesToProcess(e.pageCount.value, maxPages);
      RunTranscript(pages, size, e, lang, render);
    }
  }

  /** A successful run over the pages `1..pages` yields page `k` with its OCR text at
      position `k - 1`, for every `k`. */
  lemma RunTranscript<Img>(pages: int, size: nat, e: Engines<Img>, lang: string, render: int -> Img)
    requires RastersInOrder(e.rasterize, render)
    requires size >= 1
    ensures var recognized := Recognize(Batches(pages, size), e, lang);
      recognized.Success? ==>
        && |recognized.value| == (if pages < 0 then 0 else pages)
        && forall i :: 0 <= i < |recognized.value| ==>
             recognized.value[i].number == i + 1 && e.ocr(render(i + 1), lang) == Success(recognized.value[i].text)
  {
    var bs := Batches(pages, size);
    var recognized := Recognize(bs, e, lang);
    if recognized.Success? {
      BatchesFromCover(1, pages, size);
      BatchesFromShape(1, pages, size);
      RecognizeContent(bs, e, lang, render);
      var flat := Flatten(bs);
      assert flat == Span(1, pages);
      forall i | 0 <= i < |recognized.value|
        ensures recognized.value[i].number == i + 1 && e.ocr(render(i + 1), lang) == Success(recognized.value[i].text)
      {
        assert flat[i] == i + 1;
      }
    }
  }

  /** A 12-page PDF with no limit and the default batch size, every engine call
      succeeding: the run reports 12 pages and writes 12 segments, pages 1 to 12. */
  lemma TwelvePageRun<Img>(e: Engines<Img>, lang: string, render: int -> Img)
    requires RastersInOrder(e.rasterize, render)
    requires e.pageCount == Success(12) && e.writeError.None?
    requires forall first, last :: first <= last ==> e.rasterize(first, last).Success?
    requires forall k :: 1 <= k <= 12 ==> e.ocr(render(k), lang).Success?
    ensures var o := Extract(e, lang, 5, None);
      && o.Done?
      && o.pagesProcessed == 12
      && var recognized := Recognize(Batches(12, 5), e, lang);
         && recognized.Success?
         && o.written == Header(12, 12, lang, e.date) + Render(recognized.value)
         && Numbers(recognized.value) == Span(1, 12)
  {
    assert PagesToProcess(12, None) == 12;
    assert Extract(e, lang, 5, None).Done? by {
      ExtractDoneIff(e, lang, 5, None, render);
    }
    ExtractPageNumbers(e, lang, 5, None);
  }
}
